/** A RAR 5 file written as blocks, and read back from block to block. */
module Files50 {
  import opened Machine
  import opened Bits
  import opened BitStrings
  import opened BitReaders
  import opened Canonical
  import opened Huffman
  import CodeLengths
  import opened FilterQueue
  import opened Decodings
  import opened LzRuns
  import opened Lz50
  import opened Blocks50

  // Bytes.

  /** The low n bytes of a number, the lowest first. */
  function LeastFirst(x: nat, n: nat): (s: seq<byte>)
    ensures |s| == n
  {
    if n == 0 then [] else [x % 0x100] + LeastFirst(x / 0x100, n - 1)
  }

  lemma {:induction false} LeastFirstBack(x: nat, n: nat)
    requires x < Pow2(8 * n)
    ensures LowFirst(LeastFirst(x, n)) == x
  {
    if n == 0 {
      assert Pow2(0) == 1;
    } else {
      Pow2Add(8 * n - 8, 8);
      Pow2Values();
      LeastFirstBack(x / 0x100, n - 1);
      assert LeastFirst(x, n)[1..] == LeastFirst(x / 0x100, n - 1);
    }
  }

  lemma XorByte(a: nat, b: nat)
    requires a < 0x100 && b < 0x100
    ensures Xor(a, b) < 0x100
  {
    hide Xor;
    hide Shr;
    Pow2Values();
    ShrZero(a, 8);
    ShrZero(b, 8);
    XorHigh(a, b, 8);
  }

  lemma {:induction false} XorAllByte(x: nat, s: seq<byte>)
    requires x < 0x100
    ensures XorAll(x, s) < 0x100
    decreases |s|
  {
    if s != [] {
      XorByte(x, s[0]);
      XorAllByte(Xor(x, s[0]), s[1..]);
    }
  }

  lemma {:induction false} DataBitsJoin(a: seq<byte>, b: seq<byte>)
    ensures DataBits(a + b) == DataBits(a) + DataBits(b)
  {
    if a == [] {
      assert a + b == b;
    } else {
      assert (a + b)[1..] == a[1..] + b;
      DataBitsJoin(a[1..], b);
    }
  }

  /** Bits packed in bytes, the last byte filled up with zeros. */
  function Pack(bits: seq<Bit>): (s: seq<byte>)
    ensures |s| == (|bits| + 7) / 8
  {
    if bits == [] then []
    else if |bits| < 8 then
      FullByte(bits + seq(8 - |bits|, _ => 0));
      [Num(bits + seq(8 - |bits|, _ => 0))]
    else
      FullByte(bits[..8]);
      [Num(bits[..8])] + Pack(bits[8..])
  }

  lemma FullByte(bits: seq<Bit>)
    requires |bits| == 8
    ensures Num(bits) < 0x100 && ToBits(Num(bits), 8) == bits
  {
    Pow2Values();
    ToBitsNum(bits);
  }

  lemma {:induction false} PackHolds(bits: seq<Bit>)
    ensures |bits| <= 8 * |Pack(bits)| && DataBits(Pack(bits))[..|bits|] == bits
  {
    hide Num;
    hide ToBits;
    if bits == [] {
    } else if |bits| < 8 {
      var full := bits + seq(8 - |bits|, _ => 0);
      FullByte(full);
      assert Pack(bits)[1..] == [] && DataBits(Pack(bits)) == full + [];
    } else {
      FullByte(bits[..8]);
      PackHolds(bits[8..]);
      assert Pack(bits)[1..] == Pack(bits[8..]) && DataBits(Pack(bits)) == bits[..8] + DataBits(Pack(bits[8..]));
      assert bits == bits[..8] + bits[8..];
    }
  }

  /** A limit of exactly the packed bits delivers them, and what follows them is beyond it. */
  lemma LimitReads(bits: seq<Bit>, rest: seq<byte>)
    ensures var data := Pack(bits) + rest;
      |bits| <= 8 * |data| && Limited(data, |bits|) == bits && AfterBits(data, |bits|) == rest
  {
    hide DataBits;
    hide Pack;
    PackHolds(bits);
    DataBitsJoin(Pack(bits), rest);
  }

  // Headers.

  const MAX_BITS := 8 * 0xFF_FFFF

  /** The header of a block of so many bits. */
  function WriteHeader(bits: nat, last: bool, tables: bool): (s: seq<byte>)
    requires bits <= MAX_BITS
    ensures |s| == 5
  {
    var size := LeastFirst((bits + 7) / 8, 3);
    var flags := (bits + 7) % 8 + 16 + (if last then 0x40 else 0) + if tables then 0x80 else 0;
    XorByte(0x5a, flags);
    XorAllByte(Xor(0x5a, flags), size);
    [flags, XorAll(Xor(0x5a, flags), size)] + size
  }

  lemma HeaderReads(bits: nat, last: bool, tables: bool, rest: seq<byte>)
    requires bits <= MAX_BITS
    ensures ReadHeader(WriteHeader(bits, last, tables) + rest) == Header(bits, last, tables, rest)
  {
    hide LowFirst;
    hide LeastFirst;
    hide XorAll;
    hide Xor;
    var size := LeastFirst((bits + 7) / 8, 3);
    var data := WriteHeader(bits, last, tables) + rest;
    Pow2Values();
    LeastFirstBack((bits + 7) / 8, 3);
    assert data[2..5] == size && data[5..] == rest;
    var flags := data[0];
    assert flags / 8 % 4 + 1 == 3;
  }

  // Filters.

  ghost predicate KindWritable(kind: Kind) { kind.Delta? ==> 1 <= kind.channels <= 32 }

  function WriteKind(kind: Kind): seq<Bit>
    requires kind.Delta? ==> 1 <= kind.channels
  {
    match kind
    case Delta(n) => ToBits(0, 3) + ToBits(n - 1, 5)
    case CallFilter => ToBits(1, 3)
    case JumpFilter => ToBits(2, 3)
    case ArmFilter => ToBits(3, 3)
  }

  function WriteFilterNumber(x: nat): seq<Bit> { ToBits(3, 2) + DataBits(LeastFirst(x, 4)) }

  function WriteFilter(offset: nat, length: nat, kind: Kind): seq<Bit>
    requires kind.Delta? ==> 1 <= kind.channels
  {
    WriteFilterNumber(offset) + WriteFilterNumber(length) + WriteKind(kind)
  }

  lemma {:induction false} ReadsLowFirst(data: seq<byte>, rest: seq<Bit>)
    ensures ReadLowFirst(DataBits(data) + rest, |data|) == Some((LowFirst(data), rest))
  {
    hide Num;
    hide ToBits;
    if data == [] {
      assert DataBits(data) + rest == rest;
    } else {
      var first := ToBits(data[0], 8);
      ReadsLowFirst(data[1..], rest);
      ByteValue(data[0]);
      assert DataBits(data) + rest == first + (DataBits(data[1..]) + rest);
      assert (DataBits(data) + rest)[..8] == first && (DataBits(data) + rest)[8..] == DataBits(data[1..]) + rest;
    }
  }

  lemma ReadsFilterNumber(x: nat, rest: seq<Bit>)
    requires x < 0x1_0000_0000
    ensures ReadFilterNumber(WriteFilterNumber(x) + rest) == Some((x, rest))
  {
    hide Num;
    hide ToBits;
    hide DataBits;
    hide LowFirst;
    hide LeastFirst;
    hide ReadLowFirst;
    Pow2Values();
    assert Pow2(2) == 4;
    var bytes := DataBits(LeastFirst(x, 4));
    ReadsNumber(3, 2, bytes + rest);
    assert WriteFilterNumber(x) + rest == ToBits(3, 2) + (bytes + rest);
    ReadsLowFirst(LeastFirst(x, 4), rest);
    LeastFirstBack(x, 4);
  }

  lemma ReadsKind(offset: nat, length: nat, kind: Kind, rest: seq<Bit>)
    requires KindWritable(kind)
    ensures ReadKind(offset, length, WriteKind(kind) + rest) == FilterRead(offset, length, kind, rest)
  {
    hide Num;
    hide ToBits;
    assert Pow2(3) == 8 && Pow2(5) == 4 * Pow2(3);
    match kind {
      case Delta(n) =>
        ReadsNumber(0, 3, ToBits(n - 1, 5) + rest);
        ReadsNumber(n - 1, 5, rest);
        assert WriteKind(kind) + rest == ToBits(0, 3) + (ToBits(n - 1, 5) + rest);
      case CallFilter => ReadsNumber(1, 3, rest);
      case JumpFilter => ReadsNumber(2, 3, rest);
      case ArmFilter => ReadsNumber(3, 3, rest);
    }
  }

  lemma ReadsFilter(offset: nat, length: nat, kind: Kind, rest: seq<Bit>)
    requires offset < 0x1_0000_0000 && length < 0x1_0000_0000 && KindWritable(kind)
    ensures ReadFilter(WriteFilter(offset, length, kind) + rest) == FilterRead(offset, length, kind, rest)
  {
    hide ReadFilterNumber;
    hide WriteFilterNumber;
    hide ReadKind;
    hide WriteKind;
    var o, l, k := WriteFilterNumber(offset), WriteFilterNumber(length), WriteKind(kind);
    ReadsFilterNumber(offset, l + (k + rest));
    ReadsFilterNumber(length, k + rest);
    ReadsKind(offset, length, kind, rest);
    assert o + l + k + rest == o + (l + (k + rest));
  }

  // Blocks.

  /** Tokens up to a filter, and the filter. */
  datatype Segment = Segment(ts: seq<Token>, offset: nat, length: nat, kind: Kind)

  ghost predicate AllWritable(c: Codes, ts: seq<Token>) {
    forall k :: 0 <= k < |ts| ==> Writable(c, ts[k])
  }

  ghost predicate SegmentWritable(c: Codes, g: Segment) {
    && AllWritable(c, g.ts) && HasCode(c.main, 256) && g.offset < 0x1_0000_0000 && g.length < 0x1_0000_0000
    && KindWritable(g.kind)
  }

  ghost function SegmentPieces(c: Codes, g: Segment, past: Past): seq<Piece<Past>>
    requires SegmentWritable(c, g)
  {
    Pieces(c, g.ts, past)
  }

  /** The bits of a segment's filter. */
  ghost function FilterBits(c: Codes, g: Segment): seq<Bit>
    requires SegmentWritable(c, g)
  {
    Code(c.main, 256) + WriteFilter(g.offset, g.length, g.kind)
  }

  function FilterEvent(g: Segment): Event { Queued(FilterBlock(g.length, g.offset, FilterOf(g.kind))) }

  ghost predicate BodyWritable(c: Codes, gs: seq<Segment>, ts: seq<Token>) {
    (forall k :: 0 <= k < |gs| ==> SegmentWritable(c, gs[k])) && AllWritable(c, ts)
  }

  /** What a body of a block is in bits, what it asks for, and what is remembered after it. */
  datatype Body = Body(bits: seq<Bit>, events: seq<Event>, past: Past)

  ghost function BodyOf(c: Codes, gs: seq<Segment>, ts: seq<Token>, past: Past): Body
    requires BodyWritable(c, gs, ts)
    decreases |gs|
  {
    if gs == [] then
      var pieces := Pieces(c, ts, past);
      Body(BitsOf(pieces), EventsOf(pieces), PastOf(past, pieces))
    else
      assert SegmentWritable(c, gs[0]);
      var pieces := SegmentPieces(c, gs[0], past);
      var b := BodyOf(c, gs[1..], ts, PastOf(past, pieces));
      b.(bits := BitsOf(pieces) + (FilterBits(c, gs[0]) + b.bits),
         events := EventsOf(pieces) + [FilterEvent(gs[0])] + b.events)
  }

  /** A segment's tokens are read up to its filter. */
  lemma SegmentEntire(c: Codes, g: Segment, past: Past, more: seq<Bit>)
    requires Sized(c) && Prefix(c) && SegmentWritable(c, g)
    ensures var pieces := SegmentPieces(c, g, past);
      Entire(Steps(c, false), past, BitsOf(pieces) + (FilterBits(c, g) + more))
        == Ran(EventsOf(pieces), PastOf(past, pieces), WriteFilter(g.offset, g.length, g.kind) + more,
               Some(FilterAsked))
  {
    hide Kraft;
    hide Code;
    hide ReadCode;
    hide WriteFilter;
    hide Writable;
    hide Sized;
    var pieces := SegmentPieces(c, g, past);
    var filter := WriteFilter(g.offset, g.length, g.kind);
    PiecesRead(c, g.ts, past);
    ReadsCode(c.main, 256, filter + more, false);
    assert FilterBits(c, g) + more == Code(c.main, 256) + (filter + more);
    PiecesEntire(Steps(c, false), past, pieces, FilterBits(c, g) + more);
  }

  /** The end of the body's reading in its block. */
  ghost function AfterBody(s: Stream, b: Body): Fed {
    Prepend(b.events, AllOnward(s.(past := b.past, ahead := []), BlockDone))
  }

  lemma LastReads(s: Stream, ts: seq<Token>)
    requires Sized(s.codes) && Prefix(s.codes) && !s.truncated && BodyWritable(s.codes, [], ts)
    requires s.ahead == BodyOf(s.codes, [], ts, s.past).bits
    ensures AllOf(s) == AfterBody(s, BodyOf(s.codes, [], ts, s.past))
  {
    hide Sized;
    hide Prefix;
    hide Entire;
    hide AllOnward;
    hide Pieces;
    hide Writable;
    BlockEntire(s.codes, ts, s.past);
  }

  /** Tokens and filters that were written into a block are read back, to the end of the block. */
  lemma {:induction false} BodyReads(s: Stream, gs: seq<Segment>, ts: seq<Token>)
    requires Sized(s.codes) && Prefix(s.codes) && !s.truncated && BodyWritable(s.codes, gs, ts)
    requires s.ahead == BodyOf(s.codes, gs, ts, s.past).bits
    ensures AllOf(s) == AfterBody(s, BodyOf(s.codes, gs, ts, s.past))
    decreases |gs|
  {
    hide Sized;
    hide Prefix;
    hide OpenBlock;
    hide Entire;
    hide SegmentWritable;
    hide SegmentPieces;
    hide FilterBits;
    hide ReadFilter;
    hide WriteFilter;
    hide Pieces;
    hide Writable;
    hide AllOf;
    hide AllOnward;
    if gs == [] {
      LastReads(s, ts);
    } else {
      var c, g := s.codes, gs[0];
      assert SegmentWritable(c, g);
      var pieces := SegmentPieces(c, g, s.past);
      var more := BodyOf(c, gs[1..], ts, PastOf(s.past, pieces));
      var s' := s.(past := PastOf(s.past, pieces), ahead := more.bits);
      SegmentParts(c, g);
      SegmentEntire(c, g, s.past, s'.ahead);
      ReadsFilter(g.offset, g.length, g.kind, s'.ahead);
      BodyReads(s', gs[1..], ts);
      AllToFilter(s, EventsOf(pieces), s'.past, WriteFilter(g.offset, g.length, g.kind) + s'.ahead);
      PrependTwice(EventsOf(pieces) + [FilterEvent(g)], more.events,
                   AllOnward(s'.(past := more.past, ahead := []), BlockDone));
    }
  }

  /** A stretch of tokens up to a filter, the filter, and what follows. */
  lemma AllToFilter(s: Stream, events: seq<Event>, past: Past, left: seq<Bit>)
    requires Prefix(s.codes) && ReadFilter(left).FilterRead?
    requires Entire(Steps(s.codes, s.truncated), s.past, s.ahead) == Ran(events, past, left, Some(FilterAsked))
    ensures var f := ReadFilter(left);
      AllOf(s) == Prepend(events + [EventOfFilter(f)], AllOf(s.(past := past, ahead := f.rest)))
  {
    hide Entire;
    hide Prefix;
    hide ReadFilter;
    hide OpenBlock;
    var f := ReadFilter(left);
    PrependTwice(events, [EventOfFilter(f)], AllOf(s.(past := past, ahead := f.rest)));
  }

  lemma SegmentParts(c: Codes, g: Segment)
    requires SegmentWritable(c, g)
    ensures g.offset < 0x1_0000_0000 && g.length < 0x1_0000_0000 && KindWritable(g.kind)
  {}

  // Files.

  /** A table, as the lengths of the small code and the runs written with it. */
  datatype TableText = TableText(levels: seq<CodeLengths.Level>, runs: seq<CodeLengths.Run>)

  /** A block: a new table or none, segments, and the tokens after the last of them. */
  datatype Text = Text(table: Option<TableText>, segments: seq<Segment>, ts: seq<Token>)

  ghost predicate TableWritable(t: TableText, before: CodeTable) {
    && CodeLengths.LevelsFill(t.levels, 0)
    && var levels := CodeLengths.LevelsOf(t.levels);
    Kraft(levels) && (forall k :: 0 <= k < |t.runs| ==> CodeLengths.Writable(levels, t.runs[k]))
    && CodeLengths.Fills(levels, t.runs, before, false, [])
  }

  ghost function TableBits(t: TableText, before: CodeTable): seq<Bit>
    requires TableWritable(t, before)
  {
    CodeLengths.FillsWritable(t.levels, 0);
    CodeLengths.WriteLevels(t.levels) + CodeLengths.WriteRuns(CodeLengths.LevelsOf(t.levels), t.runs)
  }

  /** The table that is in use after one was written, or still is. */
  ghost function TableAfter(t: Option<TableText>, before: CodeTable): (table: CodeTable)
    requires t.Some? ==> TableWritable(t.value, before)
    ensures t.Some? ==> CodeLengths.Small(table)
  {
    if t == None then before
    else
      TableReads(t.value, before, []);
      CodeLengths.AllEntries(t.value.runs, before, false, [])[..|before|]
  }

  lemma TableReads(t: TableText, before: CodeTable, rest: seq<Bit>)
    requires TableWritable(t, before)
    ensures var ahead := TableBits(t, before) + rest;
      && CodeLengths.LevelsFit(ahead) && |CodeLengths.AllEntries(t.runs, before, false, [])| >= |before|
      && var entries := CodeLengths.AllEntries(t.runs, before, false, [])[..|before|];
      CodeLengths.ReadLengths(false, ahead, before, false) == CodeLengths.Table(entries, rest)
      && CodeLengths.Small(entries)
  {
    hide Kraft;
    hide CodeLengths.ReadLevels;
    hide CodeLengths.ReadEntries;
    hide CodeLengths.WriteLevels;
    hide CodeLengths.WriteRuns;
    hide CodeLengths.AllEntries;
    hide CodeLengths.Fills;
    hide CodeLengths.Writable;
    hide CodeLengths.Small;
    hide CodeLengths.LevelsFill;
    var levels := CodeLengths.LevelsOf(t.levels);
    var runs := CodeLengths.WriteRuns(levels, t.runs);
    CodeLengths.FillsWritable(t.levels, 0);
    assert TableBits(t, before) + rest == CodeLengths.WriteLevels(t.levels) + (runs + rest);
    CodeLengths.TableRoundTrip(t.levels, t.runs, rest, before, false);
    CodeLengths.ReadsLevels(t.levels, runs + rest, []);
    assert [] + CodeLengths.AllLengths(t.levels) == CodeLengths.AllLengths(t.levels);
  }

  ghost function CodesAfter(t: Option<TableText>, codes: Codes, before: CodeTable): Codes
    requires t.Some? ==> TableWritable(t.value, before)
  {
    if t == None then codes else CodesOf(TableAfter(t, before))
  }

  /** A block's bits: its table and its body. */
  ghost function TextBits(t: Text, before: CodeTable, b: Body): seq<Bit>
    requires t.table.Some? ==> TableWritable(t.table.value, before)
  {
    (if t.table.Some? then TableBits(t.table.value, before) else []) + b.bits
  }

  ghost predicate TextWritable(t: Text, codes: Codes, past: Past, before: CodeTable) {
    && (t.table.Some? ==> TableWritable(t.table.value, before))
    && var c := CodesAfter(t.table, codes, before);
    Prefix(c) && BodyWritable(c, t.segments, t.ts)
    && |TextBits(t, before, BodyOf(c, t.segments, t.ts, past))| <= MAX_BITS
  }

  /** The blocks of a file can be written one after another. */
  ghost predicate FileWritable(texts: seq<Text>, codes: Codes, past: Past, before: CodeTable)
    decreases |texts|
  {
    texts != [] && TextWritable(texts[0], codes, past, before)
    && var c := CodesAfter(texts[0].table, codes, before);
    var b := BodyOf(c, texts[0].segments, texts[0].ts, past);
    |texts| > 1 ==> FileWritable(texts[1..], c, b.past, TableAfter(texts[0].table, before))
  }

  /** A written file: its bytes, what it asks for, and the codes, what is remembered and the table after it. */
  datatype Story = Story(bytes: seq<byte>, events: seq<Event>, codes: Codes, past: Past, table: CodeTable)

  ghost function FileOf(texts: seq<Text>, codes: Codes, past: Past, before: CodeTable): Story
    requires FileWritable(texts, codes, past, before)
    decreases |texts|
  {
    var t := texts[0];
    var c, table := CodesAfter(t.table, codes, before), TableAfter(t.table, before);
    var b := BodyOf(c, t.segments, t.ts, past);
    var bits := TextBits(t, before, b);
    var block := WriteHeader(|bits|, |texts| == 1, t.table.Some?) + Pack(bits);
    if |texts| == 1 then Story(block, b.events, c, b.past, table)
    else
      var more := FileOf(texts[1..], c, b.past, table);
      more.(bytes := block + more.bytes, events := b.events + more.events)
  }

  /** Opening a written block leads to its body. */
  lemma OpenReads(s: Stream, t: Text, last: bool, tail: seq<byte>)
    requires TextWritable(t, s.codes, s.past, s.table)
    requires var c := CodesAfter(t.table, s.codes, s.table);
      var bits := TextBits(t, s.table, BodyOf(c, t.segments, t.ts, s.past));
      s.after == WriteHeader(|bits|, last, t.table.Some?) + Pack(bits) + tail
    ensures var c := CodesAfter(t.table, s.codes, s.table);
      var b := BodyOf(c, t.segments, t.ts, s.past);
      OpenBlock(s) == Opened(Stream(c, s.past, b.bits, false, tail, last, TableAfter(t.table, s.table)))
  {
    hide BodyWritable;
    hide BodyOf;
    hide Prefix;
    hide TableWritable;
    hide TableBits;
    hide WriteHeader;
    hide ReadHeader;
    hide Pack;
    hide Limited;
    hide AfterBits;
    hide CodesOf;
    hide CodeLengths.ReadLengths;
    hide CodeLengths.LevelsFit;
    hide CodeLengths.AllEntries;
    var c := CodesAfter(t.table, s.codes, s.table);
    var b := BodyOf(c, t.segments, t.ts, s.past);
    var bits := TextBits(t, s.table, b);
    var header := WriteHeader(|bits|, last, t.table.Some?);
    assert s.after == header + (Pack(bits) + tail);
    HeaderReads(|bits|, last, t.table.Some?, Pack(bits) + tail);
    LimitReads(bits, tail);
    if t.table.Some? {
      TableReads(t.table.value, s.table, b.bits);
    } else {
      assert bits == b.bits;
    }
  }

  lemma TableSized(t: Option<TableText>, codes: Codes, before: CodeTable)
    requires Sized(codes) && (t.Some? ==> TableWritable(t.value, before))
    ensures Sized(CodesAfter(t, codes, before))
  {
    hide TableWritable;
    hide CodeLengths.AllEntries;
  }

  /** Blocks written one after another are read back one after another: what is asked of the window and of the filters,
      what is remembered, the codes and the table are what was meant, and exactly what followed the last block is
      left. */
  lemma {:induction false} FileReads(s: Stream, texts: seq<Text>, rest: seq<byte>)
    requires Sized(s.codes) && FileWritable(texts, s.codes, s.past, s.table)
    requires s.after == FileOf(texts, s.codes, s.past, s.table).bytes + rest
    ensures OpenBlock(s).Opened?
    ensures var f := FileOf(texts, s.codes, s.past, s.table);
      AllOf(OpenBlock(s).s) == Fed(f.events, Stream(f.codes, f.past, [], false, rest, true, f.table), FileEnd)
    decreases |texts|
  {
    hide BodyWritable;
    hide BodyOf;
    hide OpenBlock;
    hide AllOf;
    hide Sized;
    hide Prefix;
    hide WriteHeader;
    hide Pack;
    hide TableWritable;
    hide TableAfter;
    hide CodesAfter;
    hide TextBits;
    var t := texts[0];
    var c, table := CodesAfter(t.table, s.codes, s.table), TableAfter(t.table, s.table);
    var b := BodyOf(c, t.segments, t.ts, s.past);
    var bits := TextBits(t, s.table, b);
    var block := WriteHeader(|bits|, |texts| == 1, t.table.Some?) + Pack(bits);
    TableSized(t.table, s.codes, s.table);
    if |texts| == 1 {
      OpenReads(s, t, true, rest);
      BodyReads(OpenBlock(s).s, t.segments, t.ts);
      assert b.events + [] == b.events;
    } else {
      var more := FileOf(texts[1..], c, b.past, table);
      assert block + more.bytes + rest == block + (more.bytes + rest);
      OpenReads(s, t, false, more.bytes + rest);
      var next := OpenBlock(s).s;
      BodyReads(next, t.segments, t.ts);
      FileReads(next.(past := b.past, ahead := []), texts[1..], rest);
    }
  }

  /** A written file as it is read from its start: all that was meant, to the last bit of the last block, and no
      more. */
  lemma FileEntire(texts: seq<Text>, codes: Codes, offsetSize: nat, rest: seq<byte>)
    requires offsetSize <= MAX_OFFSET_SIZE && Sized(codes) && Prefix(codes)
    requires var s := StartOf([], codes, offsetSize); FileWritable(texts, codes, s.past, s.table)
    ensures var s := StartOf([], codes, offsetSize);
      var f := FileOf(texts, codes, s.past, s.table);
      AllOf(StartOf(f.bytes + rest, codes, offsetSize))
        == Fed(f.events, Stream(f.codes, f.past, [], false, rest, true, f.table), FileEnd)
  {
    hide Step;
    hide OpenBlock;
    hide FileWritable;
    hide FileOf;
    hide Prefix;
    var s0 := StartOf([], codes, offsetSize);
    var f := FileOf(texts, codes, s0.past, s0.table);
    var s := StartOf(f.bytes + rest, codes, offsetSize);
    FileReads(s, texts, rest);
    EndReads(s.codes, s.past);
    EntireOn(Steps(s.codes, false), s.past, []);
    assert [] + f.events == f.events;
  }

  /** A written file is read back from its start in any sequence of fills, wherever the window is full between them:
      some of what was meant, with the rest still ahead; and all of it, to the last bit of the last block, once there
      were enough fills. */
  lemma FileRoundTrip(texts: seq<Text>, codes: Codes, offsetSize: nat, rest: seq<byte>, rooms: seq<nat>, size: nat)
    requires offsetSize <= MAX_OFFSET_SIZE && size > 0 && Sized(codes) && Prefix(codes)
    requires var s := StartOf([], codes, offsetSize); FileWritable(texts, codes, s.past, s.table)
    ensures var s := StartOf([], codes, offsetSize);
      var f := FileOf(texts, codes, s.past, s.table);
      var all := Fed(f.events, Stream(f.codes, f.past, [], false, rest, true, f.table), FileEnd);
      var got := FileFills(StartOf(f.bytes + rest, codes, offsetSize), rooms, size);
      && (if got.end == WindowFull then
            && got.events <= f.events
            && AllOf(got.s) == all.(events := f.events[|got.events|..])
          else got == all)
      && (0 !in rooms && |rooms| > 8 * |f.bytes + rest| ==> got.end == FileEnd)
  {
    hide AllOf;
    hide FileOf;
    hide FileWritable;
    hide FileFills;
    hide Prefix;
    var s0 := StartOf([], codes, offsetSize);
    var f := FileOf(texts, codes, s0.past, s0.table);
    var s := StartOf(f.bytes + rest, codes, offsetSize);
    FileEntire(texts, codes, offsetSize, rest);
    FileFillsRead(s, rooms, size);
    var got := FileFills(s, rooms, size);
    if got.end == WindowFull {
      assert f.events[|got.events|..] == AllOf(got.s).events;
    }
  }

  lemma NoCodes()
    ensures Kraft([]) && Prefix(NO_CODES) && Sized(NO_CODES)
  {
    hide CodeEnd;
    NoLimit([], MAX_LENGTH);
  }
}

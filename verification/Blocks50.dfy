/** The blocks of a RAR 5 file: their headers, the filters among their tokens, and reading on from block to block. */
module Blocks50 {
  import opened Machine
  import opened Bits
  import opened BitStrings
  import opened BitReaders
  import opened Canonical
  import CodeLengths
  import opened FilterQueue
  import opened DecodeReaders
  import opened Decodings
  import opened LzRuns
  import LzWindow
  import opened Lz50
  import Predictive
  import PredictiveFilters
  import AddressFilters
  import AddressLaws

  // Block headers.

  /** How many bits follow and whether the block is the last one and begins with a table; or a header that is refused or
      cut off. */
  datatype Header = Header(limit: int, last: bool, tables: bool, rest: seq<byte>) | Corrupt | Cut

  /** A number from its bytes, the lowest first. */
  function LowFirst(s: seq<byte>): nat {
    if s == [] then 0 else s[0] + 0x100 * LowFirst(s[1..])
  }

  function XorAll(x: nat, s: seq<byte>): nat
    decreases |s|
  {
    if s == [] then x else XorAll(Xor(x, s[0]), s[1..])
  }

  function ReadHeader(data: seq<byte>): (h: Header)
    ensures h.Header? ==> |h.rest| < |data|
  {
    if data == [] then Cut
    else
      var flags := data[0];
      var count := flags / 8 % 4 + 1;
      if count == 4 then Corrupt
      else if |data| < 2 + count then Cut
      else
        var size := data[2..2 + count];
        if XorAll(Xor(0x5a, flags), size) != data[1] then Corrupt
        else Header(flags % 8 + 1 + 8 * (LowFirst(size) - 1), flags / 64 % 2 == 1, flags >= 0x80, data[2 + count..])
  }

  /** A header gives a negative number of bits exactly when its size is 0 and it does not count 8 bits of it. One byte
      later the reader takes itself to have nearly 256 bits more, of which the data has none. */
  lemma NegativeLimit(data: seq<byte>)
    requires ReadHeader(data).Header?
    ensures var limit := ReadHeader(data).limit;
      && (limit < 0 <==> LowFirst(data[2..2 + data[0] / 8 % 4 + 1]) == 0 && data[0] % 8 != 7)
      && (limit < 0 ==> -7 <= limit && Counted(0, limit) == (0x100 + limit, 0))
  {
    hide XorAll;
    hide Xor;
    hide LowFirst;
    hide Counted;
    if ReadHeader(data).limit < 0 {
      CountedBelow(ReadHeader(data).limit);
    }
  }

  lemma NegativeExample()
    ensures ReadHeader([0, 0x5a, 0]) == Header(-7, false, false, [])
  {
    hide Xor;
    var data: seq<byte> := [0, 0x5a, 0];
    assert data[2..3] == [0] && data[3..] == [];
    XorNone(0x5a);
    assert XorAll(0x5a, [0]) == 0x5a;
  }

  lemma {:induction false} XorNone(a: nat)
    ensures Xor(a, 0) == a
  {
    if a > 0 { XorNone(a / 2); }
  }

  // Filters.

  /** A number of one to four bytes, the lowest first. */
  function ReadLowFirst(ahead: seq<Bit>, count: nat): Option<(nat, seq<Bit>)> {
    if count == 0 then Some((0, ahead))
    else if |ahead| < 8 then None
    else
      var high := ReadLowFirst(ahead[8..], count - 1);
      if high == None then None else Some((Num(ahead[..8]) + 0x100 * high.value.0, high.value.1))
  }

  function ReadFilterNumber(ahead: seq<Bit>): Option<(nat, seq<Bit>)> {
    if |ahead| < 2 then None else ReadLowFirst(ahead[2..], Num(ahead[..2]) + 1)
  }

  datatype Kind = Delta(channels: nat) | CallFilter | JumpFilter | ArmFilter

  /** What a kind of filter does to a block. */
  function FilterOf(kind: Kind): Filter {
    match kind
    case Delta(n) =>
      (buf: seq<byte>, offset: nat) =>
        if n == 0 then Some(Zeros(|buf|))
        else Some(Predictive.Filtered(PredictiveFilters.DeltaPredictor(n), n, buf, Zeros(|buf|)))
    case CallFilter => (buf: seq<byte>, offset: nat) => Some(AddressFilters.E8(0xe8, true, buf, Signed32(offset), true))
    case JumpFilter => (buf: seq<byte>, offset: nat) => Some(AddressFilters.E8(0xe9, true, buf, Signed32(offset), true))
    case ArmFilter => (buf: seq<byte>, offset: nat) => Some(AddressFilters.Arm(buf, offset, 0, true))
  }

  /** The bytes of a block from which a kind of filter makes the data. */
  ghost function EncodedBy(kind: Kind, data: seq<byte>, offset: nat): (r: seq<byte>)
    ensures |r| == |data|
  {
    match kind
    case Delta(n) =>
      if n == 0 then data else Predictive.Unfiltered(PredictiveFilters.DeltaPredictor(n), n, data, Zeros(|data|))
    case CallFilter => AddressFilters.E8(0xe8, true, data, Signed32(offset), false)
    case JumpFilter => AddressFilters.E8(0xe9, true, data, Signed32(offset), false)
    case ArmFilter => AddressFilters.Arm(data, offset, 0, false)
  }

  /** Each kind of filter undoes its encoder on all data, and its encoder undoes it: delta when there are channels, and
      calls and jumps where no position loses anything. */
  lemma FilterUndoes(kind: Kind, data: seq<byte>, offset: nat)
    requires kind.Delta? ==> kind.channels > 0
    requires kind.CallFilter? || kind.JumpFilter? ==> AddressFilters.Lossless(true, Signed32(offset), |data|)
    ensures FilterOf(kind)(EncodedBy(kind, data, offset), offset) == Some(data)
    ensures FilterOf(kind)(data, offset).Some? && EncodedBy(kind, FilterOf(kind)(data, offset).value, offset) == data
  {
    hide Signed32;
    hide AddressFilters.Lossless;
    hide AddressFilters.E8;
    hide AddressFilters.Arm;
    hide Predictive.Filtered;
    hide Predictive.Unfiltered;
    match kind {
      case Delta(n) =>
        Predictive.Inverses(PredictiveFilters.DeltaPredictor(n), n, data, Zeros(|data|));
      case CallFilter =>
        AddressFilters.E8Back(0xe8, true, data, Signed32(offset), true);
        AddressFilters.E8Back(0xe8, true, data, Signed32(offset), false);
      case JumpFilter =>
        AddressFilters.E8Back(0xe9, true, data, Signed32(offset), true);
        AddressFilters.E8Back(0xe9, true, data, Signed32(offset), false);
      case ArmFilter =>
        AddressFilters.ArmBack(data, offset, 0, true);
        AddressFilters.ArmBack(data, offset, 0, false);
    }
  }

  /** The first call or jump that a kind of filter looks for: both jumps and calls, or calls alone. */
  ghost predicate FirstTurn(kind: Kind, buf: seq<byte>, k: nat) {
    k + 5 <= |buf| && (buf[k] == 0xe8 || (kind.JumpFilter? && buf[k] == 0xe9))
    && forall i: nat | i < k :: buf[i] != 0xe8 && (kind.JumpFilter? ==> buf[i] != 0xe9)
  }

  /** What the filters of calls and jumps do up to the first one and to its address. */
  lemma FilterTurns(kind: Kind, buf: seq<byte>, offset: nat, k: nat)
    requires (kind.CallFilter? || kind.JumpFilter?) && FirstTurn(kind, buf, k) && offset + |buf| < 0x8000_0000
    ensures var r := FilterOf(kind)(buf, offset);
      && r.Some? && |r.value| == |buf| && r.value[..k + 1] == buf[..k + 1]
      && AddressLaws.AddressAt(r.value, k + 1)
        == AddressLaws.TurnedAddress(AddressLaws.AddressAt(buf, k + 1), (offset + k + 1) % 0x100_0000)
  {
    hide Signed32;
    hide AddressFilters.E8;
    hide AddressLaws.AddressAt;
    AddressFilters.SignedSmall(offset);
    AddressLaws.CallTurned(if kind.JumpFilter? then 0xe9 else 0xe8, buf, offset, k);
  }

  /** A filter for a block, or one that is not known, or no filter. */
  datatype FilterRead = FilterRead(offset: nat, length: nat, kind: Kind, rest: seq<Bit>) | NotKnown | NoFilter

  function ReadKind(offset: nat, length: nat, ahead: seq<Bit>): (f: FilterRead)
    ensures f.FilterRead? ==> |f.rest| < |ahead|
  {
    if |ahead| < 3 then NoFilter
    else
      var t, rest := Num(ahead[..3]), ahead[3..];
      if t == 0 then
        if |rest| < 5 then NoFilter else FilterRead(offset, length, Delta(Num(rest[..5]) + 1), rest[5..])
      else if t == 1 then FilterRead(offset, length, CallFilter, rest)
      else if t == 2 then FilterRead(offset, length, JumpFilter, rest)
      else if t == 3 then FilterRead(offset, length, ArmFilter, rest)
      else NotKnown
  }

  function ReadFilter(ahead: seq<Bit>): FilterRead {
    var offset := ReadFilterNumber(ahead);
    if offset == None then NoFilter
    else
      var length := ReadFilterNumber(offset.value.1);
      if length == None then NoFilter else ReadKind(offset.value.0, length.value.0, length.value.1)
  }

  lemma NumberShrinks(ahead: seq<Bit>, count: nat)
    ensures ReadLowFirst(ahead, count).Some? ==> |ReadLowFirst(ahead, count).value.1| <= |ahead|
  {}

  lemma FilterShrinks(ahead: seq<Bit>)
    ensures ReadFilter(ahead).FilterRead? ==> |ReadFilter(ahead).rest| < |ahead|
  {
    hide ReadLowFirst;
    hide Num;
    var offset := ReadFilterNumber(ahead);
    if offset.Some? {
      NumberShrinks(ahead[2..], Num(ahead[..2]) + 1);
      var rest := offset.value.1;
      if |rest| >= 2 {
        NumberShrinks(rest[2..], Num(rest[..2]) + 1);
      }
    }
  }

  // Reading on.

  /** The codes whose lengths a table holds one after another. */
  function CodesOf(table: seq<nat>): (c: Codes)
    requires |table| >= MAIN_SIZE + LOW_SIZE + LENGTH_SIZE && CodeLengths.Small(table)
  {
    var low := |table| - LENGTH_SIZE - LOW_SIZE;
    Codes(table[..MAIN_SIZE], table[MAIN_SIZE..low], table[low..low + LOW_SIZE], table[low + LOW_SIZE..])
  }

  /** A table of RAR 5 holds 306 lengths for tokens, n for offset slots, 16 for low bits and 44 for length slots. */
  lemma TableParts(table: seq<nat>, n: nat)
    requires n <= 80 && |table| == n + 366 && CodeLengths.Small(table)
    ensures CodesOf(table) == Codes(table[..306], table[306..n + 306], table[n + 306..n + 322], table[n + 322..])
  {}

  type CodeTable = t: seq<nat>
    | MAIN_SIZE + LOW_SIZE + LENGTH_SIZE <= |t| <= MAIN_SIZE + MAX_OFFSET_SIZE + LOW_SIZE + LENGTH_SIZE
    witness seq(MAIN_SIZE + LOW_SIZE + LENGTH_SIZE, _ => 0)

  /** Where the reading of a file stands: the codes in use, what is remembered, the bits left of the block, whether the
      data ends before the block does, the bytes after the block, whether it is the last one, and the last table. */
  datatype Stream = Stream(codes: Codes, past: Past, ahead: seq<Bit>, truncated: bool, after: seq<byte>, last: bool,
                           table: CodeTable)

  /** The start of a file: no block, nothing remembered, a table of zeros with room for so many offset slots, and all
      bytes ahead. */
  function StartOf(data: seq<byte>, codes: Codes, offsetSize: nat): Stream
    requires offsetSize <= MAX_OFFSET_SIZE
  {
    var table := CodeLengths.Copies(0, MAIN_SIZE + offsetSize + LOW_SIZE + LENGTH_SIZE);
    Stream(codes, Past([0, 0, 0, 0], 0), [], false, data, false, table)
  }

  const NO_CODES := Codes([], [], [], [])

  /** The next block is there, or its header or table is refused; or the model does not say: the small code lies beyond
      Kraft's inequality, or the header gives a negative number of bits. */
  datatype Opening = Opened(s: Stream) | Refused | Unsaid

  /** A table at the start of a block. */
  function OpenTable(s: Stream): (o: Opening)
    ensures o.Opened? ==> |o.s.ahead| <= |s.ahead| && o.s.after == s.after
  {
    if !CodeLengths.LevelsFit(s.ahead) then Unsaid
    else
      match CodeLengths.ReadLengths(s.truncated, s.ahead, s.table, false)
      case Table(entries, rest) => Opened(s.(codes := CodesOf(entries), ahead := rest, table := entries))
      case _ => Refused
  }

  function OpenBlock(s: Stream): (o: Opening)
    ensures o.Opened? ==> |o.s.ahead| + 8 * |o.s.after| < 8 * |s.after|
  {
    match ReadHeader(s.after)
    case Header(limit, last, tables, rest) =>
      if limit < 0 then Unsaid
      else
        LimitedLength(rest, limit);
        var s' :=
          s.(ahead := Limited(rest, limit), truncated := limit > 8 * |rest|, after := AfterBits(rest, limit),
             last := last);
        if tables then OpenTable(s') else Opened(s')
    case _ => Refused
  }

  lemma OpenShrinks(s: Stream)
    ensures match ReadHeader(s.after) {
        case Header(limit, _, _, rest) =>
          limit >= 0 ==> |Limited(rest, limit)| + 8 * |AfterBits(rest, limit)| < 8 * |s.after|
        case _ => true
      }
  {
    match ReadHeader(s.after)
    case Header(limit, _, _, rest) => if limit >= 0 { LimitedLength(rest, limit); }
    case _ =>
  }

  /** Why a fill stopped: the window is full, the file ends, nothing more can be read; or the model does not say. */
  datatype Finish = WindowFull | FileEnd | Failed | Beyond

  /** What a fill comes to: all that it asks of the window and the queue, and where the reading stands after it. */
  datatype Fed = Fed(events: seq<Event>, s: Stream, end: Finish)

  /** The room left in the window after events. */
  function RoomAfter(events: seq<Event>, room: nat, size: nat): (r: nat)
    requires size > 0
    ensures r <= room
    decreases |events|
  {
    if events == [] then room
    else
      match events[0]
      case Literal(_) => if room > 0 then RoomAfter(events[1..], room - 1, size) else 0
      case Copy(length, _) => RoomAfter(events[1..], room - Min(LzWindow.Mod(length, size), room), size)
      case _ => RoomAfter(events[1..], room, size)
  }

  /** The room that events leave is the room in the window that played them. */
  lemma {:induction false} RoomPlayed(h0: seq<byte>, w0: nat, size: nat, events: seq<Event>)
    requires 0 < size <= |h0| && w0 <= size
    ensures RoomAfter(events, size - w0, size) == size - (w0 + |Play(h0, w0, size, events)| - |h0|)
    decreases |events|
  {
    hide LzWindow.Mod;
    hide LzWindow.Distance;
    hide LzWindow.Repeat;
    if events != [] {
      match events[0]
      case Literal(c) => if w0 < size { RoomPlayed(h0 + [c], w0 + 1, size, events[1..]); }
      case Copy(length, offset) =>
        var n := Min(LzWindow.Mod(length, size), size - w0);
        RoomPlayed(LzWindow.Repeat(h0, LzWindow.Distance(offset, size), n), w0 + n, size, events[1..]);
      case _ => RoomPlayed(h0, w0, size, events[1..]);
    }
  }

  function Prepend(events: seq<Event>, f: Fed): Fed { f.(events := events + f.events) }

  /** Read on from block to block. */
  ghost function Blocks(s: Stream, room: nat, size: nat): Fed
    requires size > 0
    decreases |s.ahead| + 8 * |s.after|, 1
  {
    if !Prefix(s.codes) then Fed([], s, Beyond)
    else
      var r := Run(Steps(s.codes, s.truncated), s.past, s.ahead, room, size);
      RunLeaves(s.codes, s.truncated, s.past, s.ahead, room, size);
      Prepend(r.events, Onward(s.(past := r.past, ahead := r.rest), r.end, RoomAfter(r.events, room, size), size))
  }

  /** What follows when the reading of tokens stopped, here and for this reason. */
  ghost function Onward(s: Stream, end: Option<End>, room: nat, size: nat): Fed
    requires size > 0
    decreases |s.ahead| + 8 * |s.after|, 0
  {
    match end
    case None => Fed([], s, WindowFull)
    case Some(Broken) => Fed([], s, Failed)
    case Some(FilterAsked) =>
      FilterShrinks(s.ahead);
      (match ReadFilter(s.ahead)
       case FilterRead(offset, length, kind, rest) =>
         Prepend([Queued(FilterBlock(length, offset, FilterOf(kind)))], Blocks(s.(ahead := rest), room, size))
       case _ => Fed([], s, Failed))
    case Some(BlockDone) =>
      if s.last then Fed([], s, FileEnd)
      else
        match OpenBlock(s)
        case Opened(next) => Blocks(next, room, size)
        case Refused => Fed([], s, Failed)
        case Unsaid => Fed([], s, Beyond)
  }

  lemma PrependNone(f: Fed)
    ensures Prepend([], f) == f
  {
    assert [] + f.events == f.events;
  }

  lemma PrependTwice(a: seq<Event>, b: seq<Event>, f: Fed)
    ensures Prepend(a, Prepend(b, f)) == Prepend(a + b, f)
  {
    assert a + (b + f.events) == a + b + f.events;
  }

  /** Part of a file was read when a run over its tokens stopped. */
  lemma BlocksRan(s: Stream, ran: Ran<Past, End>, room: nat, size: nat, accepted: seq<Event>, all: Fed,
                  s': Stream, end: Option<End>, done: seq<Event>)
    requires size > 0 && all == Prepend(accepted, Blocks(s, room, size)) && all.end != Beyond
    requires ran == Run(Steps(s.codes, s.truncated), s.past, s.ahead, room, size)
    requires Prefix(s.codes) ==> end == ran.end && done == ran.events
    requires Prefix(s.codes) && end != Some(Broken) ==> s' == s.(past := ran.past, ahead := ran.rest)
    ensures end != Some(Broken) ==> all == Prepend(accepted + done, Onward(s', end, RoomAfter(done, room, size), size))
    ensures end == Some(Broken) ==> all.end == Failed && all.events == accepted + done
  {
    hide Run;
    hide Prefix;
    var left := RoomAfter(ran.events, room, size);
    var later := Onward(s.(past := ran.past, ahead := ran.rest), ran.end, left, size);
    PrependTwice(accepted, ran.events, later);
    if end == Some(Broken) {
      assert ran.events + [] == ran.events;
    }
  }

  lemma OnwardFull(s: Stream, room: nat, size: nat, accepted: seq<Event>, all: Fed)
    requires size > 0 && all == Prepend(accepted, Onward(s, None, room, size))
    ensures all == Fed(accepted, s, WindowFull)
  {
    assert accepted + [] == accepted;
  }

  /** Part of a file was read up to the end of a block. */
  lemma BlockFollows(s: Stream, room: nat, size: nat, accepted: seq<Event>, all: Fed)
    requires size > 0 && all == Prepend(accepted, Onward(s, Some(BlockDone), room, size)) && all.end != Beyond
    ensures if s.last then all == Fed(accepted, s, FileEnd)
      else
        match OpenBlock(s) {
          case Opened(next) => all == Prepend(accepted, Blocks(next, room, size))
          case Refused => all.end == Failed && all.events == accepted
          case Unsaid => false
        }
  {
    hide Blocks;
    assert accepted + [] == accepted;
  }

  /** The event of a filter that was read. */
  function EventOfFilter(f: FilterRead): Event
    requires f.FilterRead?
  {
    Queued(FilterBlock(f.length, f.offset, FilterOf(f.kind)))
  }

  /** Part of a file was read up to a filter. */
  lemma FilterFollows(s: Stream, room: nat, size: nat, accepted: seq<Event>, all: Fed)
    requires size > 0 && all == Prepend(accepted, Onward(s, Some(FilterAsked), room, size))
    ensures var f := ReadFilter(s.ahead);
      if f.FilterRead? then
        && all == Prepend(accepted + [EventOfFilter(f)], Blocks(s.(ahead := f.rest), room, size))
        && |accepted| < |all.events| && all.events[..|accepted|] == accepted
        && all.events[|accepted|] == EventOfFilter(f)
      else all.end == Failed && all.events == accepted
  {
    hide Blocks;
    hide FilterOf;
    FilterShrinks(s.ahead);
    var f := ReadFilter(s.ahead);
    if f.FilterRead? {
      PrependTwice(accepted, [EventOfFilter(f)], Blocks(s.(ahead := f.rest), room, size));
    } else {
      assert accepted + [] == accepted;
    }
  }

  // A whole file, whatever the window.

  /** All that the bytes of a file say from here on. */
  ghost function AllOf(s: Stream): (f: Fed)
    ensures f.end != WindowFull
    decreases Left(s), 1
  {
    if !Prefix(s.codes) then Fed([], s, Beyond)
    else
      var r := Entire(Steps(s.codes, s.truncated), s.past, s.ahead);
      EntireLeaves(s.codes, s.truncated, s.past, s.ahead);
      Prepend(r.events, AllOnward(s.(past := r.past, ahead := r.rest), r.end.value))
  }

  ghost function AllOnward(s: Stream, end: End): (f: Fed)
    ensures f.end != WindowFull
    decreases Left(s), 0
  {
    match end
    case Broken => Fed([], s, Failed)
    case FilterAsked =>
      FilterShrinks(s.ahead);
      (match ReadFilter(s.ahead)
       case FilterRead(offset, length, kind, rest) =>
         Prepend([Queued(FilterBlock(length, offset, FilterOf(kind)))], AllOf(s.(ahead := rest)))
       case _ => Fed([], s, Failed))
    case BlockDone =>
      if s.last then Fed([], s, FileEnd)
      else
        match OpenBlock(s)
        case Opened(next) => AllOf(next)
        case Refused => Fed([], s, Failed)
        case Unsaid => Fed([], s, Beyond)
  }

  /** How many bits are left to read. */
  function Left(s: Stream): nat { |s.ahead| + 8 * |s.after| }

  /** What a fill that stopped here leaves of all that there was. */
  ghost predicate PartOf(f: Fed, all: Fed) {
    all == if f.end == WindowFull then Prepend(f.events, AllOf(f.s)) else f
  }

  lemma PartLater(events: seq<Event>, f: Fed, all: Fed)
    requires PartOf(f, all)
    ensures PartOf(Prepend(events, f), Prepend(events, all))
  {
    hide AllOf;
    PrependTwice(events, f.events, AllOf(f.s));
  }

  /** A fill reads all there is, or a part of it that fills the window and leaves exactly the rest to be read. When
      there was room, the part takes bits. */
  lemma {:induction false} BlocksArePart(s: Stream, room: nat, size: nat)
    requires size > 0
    ensures var f := Blocks(s, room, size);
      && PartOf(f, AllOf(s))
      && (f.end == WindowFull ==> Left(f.s) <= Left(s) && (room > 0 ==> Left(f.s) < Left(s)))
    decreases Left(s), 1
  {
    hide Prefix;
    hide Run;
    hide Entire;
    hide Onward;
    hide AllOnward;
    hide RoomAfter;
    if Prefix(s.codes) {
      var step := Steps(s.codes, s.truncated);
      var r := Run(step, s.past, s.ahead, room, size);
      var next := s.(past := r.past, ahead := r.rest);
      RunIsPart(step, s.past, s.ahead, room, size);
      RunLeaves(s.codes, s.truncated, s.past, s.ahead, room, size);
      if r.end == None {
        NoneOnward(next, RoomAfter(r.events, room, size), size);
        assert r.events + [] == r.events;
        var later := Entire(step, r.past, r.rest);
        PrependTwice(r.events, later.events,
                     AllOnward(next.(past := later.past, ahead := later.rest), later.end.value));
      } else {
        OnwardIsPart(next, r.end.value, RoomAfter(r.events, room, size), size);
        PartLater(r.events, Onward(next, r.end, RoomAfter(r.events, room, size), size), AllOnward(next, r.end.value));
      }
    }
  }

  lemma NoneOnward(s: Stream, room: nat, size: nat)
    requires size > 0
    ensures Onward(s, None, room, size) == Fed([], s, WindowFull)
  {}

  lemma {:induction false} OnwardIsPart(s: Stream, end: End, room: nat, size: nat)
    requires size > 0
    ensures var f := Onward(s, Some(end), room, size);
      PartOf(f, AllOnward(s, end)) && (f.end == WindowFull ==> Left(f.s) < Left(s))
    decreases Left(s), 0
  {
    hide Blocks;
    hide AllOf;
    hide OpenBlock;
    hide ReadFilter;
    hide FilterOf;
    match end {
      case Broken =>
      case FilterAsked =>
        FilterShrinks(s.ahead);
        var f := ReadFilter(s.ahead);
        if f.FilterRead? {
          var next := s.(ahead := f.rest);
          BlocksArePart(next, room, size);
          PartLater([EventOfFilter(f)], Blocks(next, room, size), AllOf(next));
        }
      case BlockDone =>
        if !s.last && OpenBlock(s).Opened? {
          BlocksArePart(OpenBlock(s).s, room, size);
        }
    }
  }

  /** Fills one after another, each with its room, until one stops short of a full window. */
  ghost function FileFills(s: Stream, rooms: seq<nat>, size: nat): Fed
    requires size > 0
    decreases |rooms|
  {
    if rooms == [] then Fed([], s, WindowFull)
    else
      var f := Blocks(s, rooms[0], size);
      if f.end == WindowFull then Prepend(f.events, FileFills(f.s, rooms[1..], size)) else f
  }

  /** However the window cuts the reading of a file into fills, they read all there is, or a part and leave exactly the
      rest; and enough fills with room read all. */
  lemma {:induction false} FileFillsRead(s: Stream, rooms: seq<nat>, size: nat)
    requires size > 0
    ensures var f := FileFills(s, rooms, size);
      PartOf(f, AllOf(s)) && (0 !in rooms && |rooms| > Left(s) ==> f.end != WindowFull)
    decreases |rooms|
  {
    hide Blocks;
    hide AllOf;
    if rooms == [] {
      PrependNone(AllOf(s));
    } else {
      BlocksArePart(s, rooms[0], size);
      var f := Blocks(s, rooms[0], size);
      if f.end == WindowFull {
        FileFillsRead(f.s, rooms[1..], size);
        PartLater(f.events, FileFills(f.s, rooms[1..], size), AllOf(f.s));
      }
    }
  }
}

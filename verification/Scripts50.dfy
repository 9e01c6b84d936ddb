/** A RAR 5 file as the events that its reader is given, fill after fill. */
module Scripts50 {
  import opened Machine
  import opened BitStrings
  import opened LzWindow
  import opened FilterQueue
  import opened Decodings
  import opened Outputs
  import opened LzRuns
  import Lz50
  import opened Blocks50
  import opened Files50

  /** The error that reading ends with. */
  function ErrorOf(end: Finish): Error { if end == FileEnd then EndOfFile else DecoderFailed(0) }

  /** The events of a file and the error they end with. */
  function ScriptOf(f: Fed): seq<Event> { f.events + [Stop(Some(ErrorOf(f.end)))] }

  // What blocks ask of the window finds room.

  /** There is room before each of the events, and none of them ends the fill. */
  ghost predicate RoomFor(events: seq<Event>, room: nat, size: nat)
    requires size > 0
  {
    forall k: nat :: k < |events| ==> !events[k].Stop? && RoomAfter(events[..k], room, size) > 0
  }

  lemma {:induction false} RoomJoin(a: seq<Event>, b: seq<Event>, room: nat, size: nat)
    requires size > 0
    ensures RoomAfter(a + b, room, size) == RoomAfter(b, RoomAfter(a, room, size), size)
    decreases |a|
  {
    hide LzWindow.Mod;
    if a == [] {
      assert a + b == b;
    } else {
      assert (a + b)[1..] == a[1..] + b;
      match a[0]
      case Literal(_) => if room > 0 { RoomJoin(a[1..], b, room - 1, size); } else { NoRoom(b, size); }
      case Copy(length, _) => RoomJoin(a[1..], b, room - Min(LzWindow.Mod(length, size), room), size);
      case _ => RoomJoin(a[1..], b, room, size);
    }
  }

  lemma {:induction false} NoRoom(events: seq<Event>, size: nat)
    requires size > 0
    ensures RoomAfter(events, 0, size) == 0
    decreases |events|
  {
    hide LzWindow.Mod;
    if events != [] && !events[0].Literal? {
      NoRoom(events[1..], size);
    }
  }

  lemma RoomForJoin(a: seq<Event>, b: seq<Event>, room: nat, size: nat)
    requires size > 0 && RoomFor(a, room, size) && RoomFor(b, RoomAfter(a, room, size), size)
    ensures RoomFor(a + b, room, size) && RoomAfter(a + b, room, size) == RoomAfter(b, RoomAfter(a, room, size), size)
  {
    hide RoomAfter;
    RoomJoin(a, b, room, size);
    forall k: nat | k < |a + b| ensures !(a + b)[k].Stop? && RoomAfter((a + b)[..k], room, size) > 0 {
      if k < |a| {
        assert (a + b)[..k] == a[..k] && (a + b)[k] == a[k];
      } else {
        assert (a + b)[..k] == a + b[..k - |a|] && (a + b)[k] == b[k - |a|];
        RoomJoin(a, b[..k - |a|], room, size);
      }
    }
  }

  lemma RoomForOne(e: Event, room: nat, size: nat)
    requires size > 0 && room > 0 && !e.Stop?
    ensures RoomFor([e], room, size)
    ensures RoomAfter([e], room, size) == if e.Literal? || e.Copy? then room - Fills(e, room, size) else room
  {
    assert [e][..0] == [] && [e][1..] == [];
  }

  lemma {:induction false} RunRoomy<S(!new), E>(step: (S, seq<Bit>) -> Outcome<S, E>, past: S, ahead: seq<Bit>,
                                                room: nat, size: nat)
    requires Shrinks(step) && size > 0
    ensures var r := Run(step, past, ahead, room, size);
      RoomFor(r.events, room, size) && (r.end == None <==> RoomAfter(r.events, room, size) == 0)
    decreases |ahead|
  {
    hide Fills;
    hide Run;
    hide RoomAfter;
    hide RoomFor;
    if room == 0 {
      RunFull(step, past, ahead, size);
      RoomForNone(room, size);
    } else if step(past, ahead).Halt? {
      RunStops(step, past, ahead, room, size);
      RoomForNone(room, size);
    } else {
      var o := step(past, ahead);
      var e := EventOf(o.action);
      var left := room - Fills(e, room, size);
      RunOn(step, past, ahead, room, size);
      ShrinksBy(step, past, ahead);
      RunRoomy(step, o.past, o.rest, left, size);
      RoomForOne(e, room, size);
      RoomForJoin([e], Run(step, o.past, o.rest, left, size).events, room, size);
    }
  }

  lemma RoomForNone(room: nat, size: nat)
    requires size > 0
    ensures RoomFor([], room, size) && RoomAfter([], room, size) == room
  {}

  /** What a fill reads finds room; it fills the window, or there is room left. */
  lemma {:induction false} BlocksRoomy(s: Stream, room: nat, size: nat)
    requires size > 0
    ensures var f := Blocks(s, room, size);
      && RoomFor(f.events, room, size)
      && (f.end != Beyond ==> (f.end == WindowFull <==> RoomAfter(f.events, room, size) == 0))
    decreases Left(s), 1
  {
    hide Prefix;
    hide Run;
    hide Onward;
    hide RoomAfter;
    hide RoomFor;
    if Prefix(s.codes) {
      var r := Run(Lz50.Steps(s.codes, s.truncated), s.past, s.ahead, room, size);
      var next := s.(past := r.past, ahead := r.rest);
      RunRoomy(Lz50.Steps(s.codes, s.truncated), s.past, s.ahead, room, size);
      Lz50.RunLeaves(s.codes, s.truncated, s.past, s.ahead, room, size);
      OnwardRoomy(next, r.end, RoomAfter(r.events, room, size), size);
      RoomForJoin(r.events, Onward(next, r.end, RoomAfter(r.events, room, size), size).events, room, size);
    } else {
      RoomForNone(room, size);
    }
  }

  lemma {:induction false} OnwardRoomy(s: Stream, end: Option<Lz50.End>, room: nat, size: nat)
    requires size > 0 && (end == None <==> room == 0)
    ensures var f := Onward(s, end, room, size);
      && RoomFor(f.events, room, size)
      && (f.end != Beyond ==> (f.end == WindowFull <==> RoomAfter(f.events, room, size) == 0))
    decreases Left(s), 0
  {
    hide Blocks;
    hide OpenBlock;
    hide ReadFilter;
    hide FilterOf;
    hide RoomAfter;
    hide RoomFor;
    RoomForNone(room, size);
    if end == Some(Lz50.FilterAsked) {
      FilterShrinks(s.ahead);
      var f := ReadFilter(s.ahead);
      if f.FilterRead? {
        BlocksRoomy(s.(ahead := f.rest), room, size);
        RoomForOne(EventOfFilter(f), room, size);
        RoomForJoin([EventOfFilter(f)], Blocks(s.(ahead := f.rest), room, size).events, room, size);
      }
    } else if end == Some(Lz50.BlockDone) {
      if !s.last && OpenBlock(s).Opened? {
        BlocksRoomy(OpenBlock(s).s, room, size);
      }
    }
  }

  /** Room counted is room in the window. */
  lemma RoomIsRoomy(hist: seq<byte>, w: nat, size: nat, events: seq<Event>)
    requires 0 < size <= |hist| && w <= size && RoomFor(events, size - w, size)
    ensures Roomy(hist, w, size, events)
  {
    hide RoomAfter;
    hide Play;
    forall k: nat | k < |events| ensures !events[k].Stop? && w + |Play(hist, w, size, events[..k])| - |hist| < size {
      RoomPlayed(hist, w, size, events[..k]);
    }
  }

  // A fill.

  /** A fill of a reader that is given a whole file's events takes exactly those that the blocks in the window's room
      come to, when none of the filters is refused. */
  lemma FillDecoded(s: Stream, hist: seq<byte>, w: nat, size: nat, consumed: nat, last: int, count: nat)
    requires 0 < size <= |hist| && w <= size && AllOf(s).end != Beyond
    requires Unrefused(hist, w, size, Blocks(s, size - w, size).events, consumed, last, count)
    ensures var f, script := Blocks(s, size - w, size), ScriptOf(AllOf(s));
      && f.events <= script
      && DecodingOf(|hist|, w, size, script, consumed, last, count)
        == (if f.end == WindowFull then Decoding(|f.events|, false, None)
            else Decoding(|script|, false, Some(ErrorOf(f.end))))
      && if f.end == WindowFull then script[|f.events|..] == ScriptOf(AllOf(f.s)) else script == ScriptOf(f)
  {
    hide Blocks;
    hide AllOf;
    hide RoomAfter;
    hide Play;
    hide Recordings;
    hide DecodingOf;
    hide LastOf;
    hide Unrefused;
    hide Roomy;
    hide RoomFor;
    var f, script := Blocks(s, size - w, size), ScriptOf(AllOf(s));
    BlocksArePart(s, size - w, size);
    BlocksRoomy(s, size - w, size);
    RoomIsRoomy(hist, w, size, f.events);
    RoomPlayed(hist, w, size, f.events);
    var rest := if f.end == WindowFull then ScriptOf(AllOf(f.s)) else [Stop(Some(ErrorOf(f.end)))];
    assert script == f.events + rest;
    DecodingTaken(hist, w, size, f.events, rest, consumed, last, count);
    var h, added := Play(hist, w, size, f.events), Recordings(|hist|, w, size, f.events, consumed, last);
    var w' := w + |h| - |hist|;
    if f.end == WindowFull {
      NothingLeft(|h|, size, rest, consumed, LastOf(last, added), count + |added|);
    } else {
      DecodingStep(|h|, w', size, rest, consumed, LastOf(last, added), count + |added|, Some(ErrorOf(f.end)),
                   LastOf(last, added));
    }
  }

  lemma NothingLeft(at: nat, size: nat, script: seq<Event>, consumed: nat, last: int, count: nat)
    requires 0 < size
    ensures DecodingOf(at, size, size, script, consumed, last, count) == Decoding(0, false, None)
  {}

  /** When the queue refuses a filter, the fill ends there. */
  lemma FillRefused(s: Stream, hist: seq<byte>, w: nat, size: nat, consumed: nat, last: int, count: nat,
                    accepted: seq<Event>, refused: Error)
    requires 0 < size <= |hist| && w <= size && AllOf(s).end != Beyond
    requires Unrefused(hist, w, size, accepted, consumed, last, count)
    requires var all := Blocks(s, size - w, size).events;
      && |accepted| < |all| && accepted == all[..|accepted|] && all[|accepted|].Queued?
      && var added := Recordings(|hist|, w, size, accepted, consumed, last);
      Refusal(count + |added|, LastOf(last, added),
              |Play(hist, w, size, accepted)| + all[|accepted|].block.offset, consumed) == Some(refused)
    ensures var script := ScriptOf(AllOf(s));
      && |accepted| < |script| && script[..|accepted|] == accepted
      && DecodingOf(|hist|, w, size, script, consumed, last, count) == Decoding(|accepted| + 1, true, Some(refused))
  {
    hide Blocks;
    hide AllOf;
    hide RoomAfter;
    hide Play;
    hide Recordings;
    hide DecodingOf;
    hide LastOf;
    hide Refusal;
    hide Unrefused;
    hide Roomy;
    hide RoomFor;
    var f, script := Blocks(s, size - w, size), ScriptOf(AllOf(s));
    BlocksArePart(s, size - w, size);
    BlocksRoomy(s, size - w, size);
    RoomIsRoomy(hist, w, size, f.events);
    RoomyPart(hist, w, size, f.events, |accepted|);
    assert f.events <= script;
    var rest := script[|accepted|..];
    assert script == accepted + rest && rest[0] == f.events[|accepted|];
    DecodingTaken(hist, w, size, accepted, rest, consumed, last, count);
    var h, added := Play(hist, w, size, accepted), Recordings(|hist|, w, size, accepted, consumed, last);
    var lastNow := LastOf(last, added);
    DecodingStep(|h|, w + |h| - |hist|, size, rest, consumed, lastNow, count + |added|, Some(refused),
                 Recorded(|h| + rest[0].block.offset, consumed, lastNow, size));
  }

  lemma RoomyPart(hist: seq<byte>, w: nat, size: nat, events: seq<Event>, k: nat)
    requires 0 < size <= |hist| && w <= size && Roomy(hist, w, size, events) && k < |events|
    ensures Roomy(hist, w, size, events[..k]) && w + |Play(hist, w, size, events[..k])| - |hist| < size
  {
    hide Play;
    forall j: nat | j < k ensures !events[..k][j].Stop? && w + |Play(hist, w, size, events[..k][..j])| - |hist| < size {
      assert events[..k][..j] == events[..j];
      RoomyAt(hist, w, size, events, j);
    }
    RoomyAt(hist, w, size, events, k);
  }

  /** A reader that is given a file's events fills its window as the blocks say, and is then given the events of the
      rest of the file. */
  lemma FillOfFile(src: Source, s: Stream, size: nat, origin: nat)
    requires Readable(src, size, origin) && src.err == None
    requires AllOf(s).end != Beyond && src.script == ScriptOf(AllOf(s))
    requires var w0 := Wrapped(src.w, size);
      Unrefused(src.hist, w0, size, Blocks(s, size - w0, size).events, |src.hist| - origin, LastOf(origin, src.queue),
                |src.queue|)
    ensures var w0 := Wrapped(src.w, size);
      var f := Blocks(s, size - w0, size);
      var h := Play(src.hist, w0, size, f.events);
      var added := Recordings(|src.hist|, w0, size, f.events, |src.hist| - origin, LastOf(origin, src.queue));
      var full := f.end == WindowFull;
      var e := if full then None else Some(ErrorOf(f.end));
      var next := Source(h, w0 + |h| - |src.hist|, if full then ScriptOf(AllOf(f.s)) else [], None, src.queue + added);
      FillOf(src, size, origin) == if |h| == |src.hist| then (e, next) else (None, next.(err := e))
  {
    hide Blocks;
    hide AllOf;
    hide Play;
    hide Recordings;
    hide DecodingOf;
    hide LastOf;
    hide Unrefused;
    hide FillOf;
    var w0, consumed, last := Wrapped(src.w, size), |src.hist| - origin, LastOf(origin, src.queue);
    var f := Blocks(s, size - w0, size);
    FillDecoded(s, src.hist, w0, size, consumed, last, |src.queue|);
    var d := DecodingOf(|src.hist|, w0, size, src.script, consumed, last, |src.queue|);
    StopsAfter(src.hist, w0, size, f.events, Some(ErrorOf(f.end)), consumed, last);
    FillRan(src, size, origin, d, Play(src.hist, w0, size, src.script[..d.taken]),
            Recordings(|src.hist|, w0, size, AcceptedOf(src.script, d), consumed, last));
    if f.end == WindowFull {
      assert src.script[..|f.events|] == f.events;
    } else {
      assert src.script[..|src.script|] == src.script;
    }
  }

  /** The end of the decoding writes nothing. */
  lemma StopsAfter(hist: seq<byte>, w: nat, size: nat, events: seq<Event>, e: Option<Error>, consumed: nat, last: int)
    requires 0 < size <= |hist| && w <= size
    ensures Play(hist, w, size, events + [Stop(e)]) == Play(hist, w, size, events)
    ensures Recordings(|hist|, w, size, events + [Stop(e)], consumed, last)
      == Recordings(|hist|, w, size, events, consumed, last)
  {
    hide Recordings;
    PlayJoin(hist, w, size, events, [Stop(e)]);
    StopRecords(|hist|, w, size, events, e, consumed, last);
  }

  lemma {:induction false} StopRecords(at: nat, w: nat, size: nat, events: seq<Event>, e: Option<Error>, consumed: nat,
                                       last: int)
    requires 0 < size && w <= size
    ensures Recordings(at, w, size, events + [Stop(e)], consumed, last)
      == Recordings(at, w, size, events, consumed, last)
    decreases |events|
  {
    hide LzWindow.Mod;
    hide Recorded;
    if events == [] {
      assert events + [Stop(e)] == [Stop(e)] && [Stop(e)][1..] == [];
    } else {
      assert (events + [Stop(e)])[1..] == events[1..] + [Stop(e)];
      match events[0]
      case Literal(_) => if w < size { StopRecords(at + 1, w + 1, size, events[1..], e, consumed, last); }
      case Copy(length, _) =>
        var n := Min(LzWindow.Mod(length, size), size - w);
        StopRecords(at + n, w + n, size, events[1..], e, consumed, last);
      case Queued(block) =>
        StopRecords(at, w, size, events[1..], e, consumed, Recorded(at + block.offset, consumed, last, size));
      case Stop(_) => StopRecords(at, w, size, events[1..], e, consumed, last);
    }
  }

  // Part of the way through a fill.

  /** Where a fill began: the history and the place in the window, the filters recorded and queued, how much of a block
      was taken, and where the last queued block started. */
  datatype Start = Start(hist: seq<byte>, w: nat, queued: seq<Interval>, count: nat, consumed: nat, last: int)

  /** How far a fill has come, with no filter refused. */
  ghost predicate Accepted(f: Start, size: nat, accepted: seq<Event>, hist: seq<byte>, w: nat, added: seq<Interval>,
                           lastNow: int, countNow: nat)
  {
    && Progress(f.hist, f.w, size, accepted, f.consumed, f.last, hist, w, added, lastNow)
    && countNow == f.count + |added| && Unrefused(f.hist, f.w, size, accepted, f.consumed, f.last, f.count)
  }

  lemma AcceptedNone(f: Start, size: nat)
    requires 0 < size <= |f.hist| && f.w <= size
    ensures Accepted(f, size, [], f.hist, f.w, [], f.last, f.count)
  {
    hide Progress;
    ProgressStart(f.hist, f.w, size, f.consumed, f.last);
  }

  lemma AcceptedFilled(f: Start, size: nat, accepted: seq<Event>, hist: seq<byte>, w: nat, added: seq<Interval>,
                       lastNow: int, countNow: nat, events: seq<Event>, hist': seq<byte>, w': nat)
    requires Accepted(f, size, accepted, hist, w, added, lastNow, countNow)
    requires Played(hist, w, size, events, hist', w') && Fillers(events)
    ensures Accepted(f, size, accepted + events, hist', w', added, lastNow, countNow)
  {
    hide Played;
    hide Play;
    hide Recordings;
    hide Unrefused;
    ProgressFilled(f.hist, f.w, size, accepted, f.consumed, f.last, hist, w, added, lastNow, events, hist', w');
    UnrefusedFilled(f.hist, f.w, size, accepted, f.consumed, f.last, f.count, events);
  }

  lemma AcceptedMore(f: Start, size: nat, accepted: seq<Event>, hist: seq<byte>, w: nat, added: seq<Interval>,
                     lastNow: int, countNow: nat, block: FilterBlock)
    requires Accepted(f, size, accepted, hist, w, added, lastNow, countNow) && w < size
    requires Refusal(countNow, lastNow, |hist| + block.offset, f.consumed) == None
    ensures var now := Recordings(|hist|, w, size, [Queued(block)], f.consumed, lastNow);
      Accepted(f, size, accepted + [Queued(block)], hist, w, added + now, LastOf(lastNow, now), countNow + 1)
  {
    hide Play;
    hide Recordings;
    hide Unrefused;
    hide LastOf;
    hide Refusal;
    ProgressMore(f.hist, f.w, size, accepted, f.consumed, f.last, hist, w, added, lastNow, Queued(block));
    QueuedPlays(hist, w, size, block);
    RecordingsOne(|hist|, w, size, Queued(block), f.consumed, lastNow);
    UnrefusedMore(f.hist, f.w, size, accepted, f.consumed, f.last, f.count, block);
  }

  lemma QueuedPlays(hist: seq<byte>, w: nat, size: nat, block: FilterBlock)
    requires 0 < size <= |hist| && w < size
    ensures Play(hist, w, size, [Queued(block)]) == hist
  {
    assert [Queued(block)][1..] == [];
  }

  lemma AcceptedMeans(f: Start, size: nat, accepted: seq<Event>, hist: seq<byte>, w: nat, added: seq<Interval>,
                      lastNow: int, countNow: nat)
    requires Accepted(f, size, accepted, hist, w, added, lastNow, countNow)
    ensures 0 < size <= |f.hist| && f.w <= size && hist == Play(f.hist, f.w, size, accepted)
    ensures added == Recordings(|f.hist|, f.w, size, accepted, f.consumed, f.last)
    ensures lastNow == LastOf(f.last, added) && countNow == f.count + |added|
    ensures Unrefused(f.hist, f.w, size, accepted, f.consumed, f.last, f.count)
  {
    hide Unrefused;
  }

  /** What a fill comes to that went as far as the blocks in the window's room, or to a filter that is refused, is what
      it comes to for a reader that is given the file's events. */
  lemma FillDone(s: Stream, hist: seq<byte>, w: nat, size: nat, consumed: nat, last: int, count: nat,
                 accepted: seq<Event>, refused: Option<Error>)
    requires 0 < size <= |hist| && w <= size && AllOf(s).end != Beyond
    requires Unrefused(hist, w, size, accepted, consumed, last, count)
    requires var all := Blocks(s, size - w, size).events;
      if refused == None then accepted == all
      else
        && |accepted| < |all| && accepted == all[..|accepted|] && all[|accepted|].Queued?
        && var added := Recordings(|hist|, w, size, accepted, consumed, last);
        Refusal(count + |added|, LastOf(last, added),
                |Play(hist, w, size, accepted)| + all[|accepted|].block.offset, consumed) == refused
    ensures var f, script := Blocks(s, size - w, size), ScriptOf(AllOf(s));
      var d := DecodingOf(|hist|, w, size, script, consumed, last, count);
      && d.e == (if refused.Some? then refused else if f.end == WindowFull then None else Some(ErrorOf(f.end)))
      && Play(hist, w, size, script[..d.taken]) == Play(hist, w, size, accepted)
      && Recordings(|hist|, w, size, AcceptedOf(script, d), consumed, last)
        == Recordings(|hist|, w, size, accepted, consumed, last)
      && (d.e == None ==> script[d.taken..] == ScriptOf(AllOf(f.s)))
  {
    hide Blocks;
    hide AllOf;
    hide Play;
    hide Recordings;
    hide DecodingOf;
    hide LastOf;
    hide Refusal;
    hide Unrefused;
    var f, script := Blocks(s, size - w, size), ScriptOf(AllOf(s));
    BlocksArePart(s, size - w, size);
    if refused.Some? {
      FillRefused(s, hist, w, size, consumed, last, count, accepted, refused.value);
      assert f.events <= script;
      var e := f.events[|accepted|];
      assert script[..|accepted| + 1] == accepted + [e];
      PlayJoin(hist, w, size, accepted, [e]);
      RoomAtFilter(s, hist, w, size, |accepted|);
      QueuedPlays(Play(hist, w, size, accepted), w + |Play(hist, w, size, accepted)| - |hist|, size, e.block);
    } else {
      FillDecoded(s, hist, w, size, consumed, last, count);
      StopsAfter(hist, w, size, f.events, Some(ErrorOf(f.end)), consumed, last);
      if f.end == WindowFull {
        assert script[..|f.events|] == f.events;
      } else {
        assert script[..|script|] == script;
      }
    }
  }

  lemma RoomAtFilter(s: Stream, hist: seq<byte>, w: nat, size: nat, k: nat)
    requires 0 < size <= |hist| && w <= size && k < |Blocks(s, size - w, size).events|
    ensures w + |Play(hist, w, size, Blocks(s, size - w, size).events[..k])| - |hist| < size
  {
    hide Blocks;
    hide Play;
    hide RoomFor;
    var events := Blocks(s, size - w, size).events;
    BlocksRoomy(s, size - w, size);
    RoomIsRoomy(hist, w, size, events);
    RoomyAt(hist, w, size, events, k);
  }

  // A whole file.

  /** No event ends the decoding, and no copy has a negative length. */
  ghost predicate Going(events: seq<Event>) {
    forall k :: 0 <= k < |events| ==> !events[k].Stop? && (events[k].Copy? ==> events[k].length >= 0)
  }

  lemma {:induction false} EntireGoing<S(!new), E>(step: (S, seq<Bit>) -> Outcome<S, E>, past: S, ahead: seq<Bit>)
    requires Shrinks(step)
    ensures Going(Entire(step, past, ahead).events)
    decreases |ahead|
  {
    EntireOn(step, past, ahead);
    if step(past, ahead).Act? {
      EntireGoing(step, step(past, ahead).past, step(past, ahead).rest);
    }
  }

  lemma {:induction false} AllGoing(s: Stream)
    ensures Going(AllOf(s).events)
    decreases Left(s), 1
  {
    hide Prefix;
    hide Entire;
    hide AllOnward;
    if Prefix(s.codes) {
      var step := Lz50.Steps(s.codes, s.truncated);
      var r := Entire(step, s.past, s.ahead);
      EntireGoing(step, s.past, s.ahead);
      Lz50.EntireLeaves(s.codes, s.truncated, s.past, s.ahead);
      OnwardGoing(s.(past := r.past, ahead := r.rest), r.end.value);
    }
  }

  lemma {:induction false} OnwardGoing(s: Stream, end: Lz50.End)
    ensures Going(AllOnward(s, end).events)
    decreases Left(s), 0
  {
    hide AllOf;
    hide OpenBlock;
    hide ReadFilter;
    hide FilterOf;
    if end == Lz50.FilterAsked {
      FilterShrinks(s.ahead);
      var f := ReadFilter(s.ahead);
      if f.FilterRead? {
        AllGoing(s.(ahead := f.rest));
      }
    } else if end == Lz50.BlockDone && !s.last && OpenBlock(s).Opened? {
      AllGoing(OpenBlock(s).s);
    }
  }

  /** A reader at the start of a file: a window with what it held before, and the file's events. */
  function SourceOf(f: Fed, hist: seq<byte>, w: nat): Source { Source(hist, w, ScriptOf(f), None, []) }

  /** All that a reader outputs of a file is the history that its events come to, over all fills, with the filters
      applied each to its interval, as far as the reader comes; when it ends with the end of the file, the history is
      complete. Without filters it is the whole history, and then the end of the file. */
  lemma FileOutput(f: Fed, hist: seq<byte>, w: nat, size: nat)
    requires Going(f.events) && f.end != Beyond && 0 < size <= |hist| && w <= size
    ensures var s := SourceOf(f, hist, w); Readable(s, size, |hist|) && Ending(s)
    ensures var t, all := AllOutput(SourceOf(f, hist, w), size, |hist|, 0), PlayOn(hist, w, size, f.events);
      && |hist| <= t.origin <= |t.s.hist| && t.s.hist <= all
      && Render(all, |hist|, t.origin, t.groups) == Some(t.out)
      && (t.e == EndOfFile ==> t.s.hist == all)
      && (f.end == FileEnd && (forall k :: 0 <= k < |f.events| ==> !f.events[k].Queued?) ==>
            t.e == EndOfFile && t.out == all[|hist|..])
  {
    hide PlayOn;
    hide AllOutput;
    hide Render;
    var s := SourceOf(f, hist, w);
    RenderNone(hist, |hist|);
    FinalOfFile(f, hist, w, size);
    OutputRenders(s, size, |hist|, |hist|, [], []);
    var t := AllOutput(s, size, |hist|, 0);
    assert [] + t.groups == t.groups && [] + t.out == t.out;
    RenderKept(t.s.hist, PlayOn(hist, w, size, f.events), |hist|, t.origin, t.groups);
    if f.end == FileEnd && forall k :: 0 <= k < |f.events| ==> !f.events[k].Queued? {
      PlainRenders(s, size);
    }
  }

  lemma FinalOfFile(f: Fed, hist: seq<byte>, w: nat, size: nat)
    requires 0 < size <= |hist| && w <= size
    ensures Final(SourceOf(f, hist, w), size) == PlayOn(hist, w, size, f.events)
  {
    StopPlaysOn(hist, w, size, f.events, Some(ErrorOf(f.end)));
  }

  lemma {:induction false} StopPlaysOn(hist: seq<byte>, w: nat, size: nat, events: seq<Event>, e: Option<Error>)
    requires 0 < size <= |hist| && w <= size
    ensures PlayOn(hist, w, size, events + [Stop(e)]) == PlayOn(hist, w, size, events)
    decreases |events|
  {
    hide LzWindow.Mod;
    hide Distance;
    hide Repeat;
    if events == [] {
      assert events + [Stop(e)] == [Stop(e)] && [Stop(e)][1..] == [];
    } else {
      assert (events + [Stop(e)])[1..] == events[1..] + [Stop(e)];
      var w0 := Wrapped(w, size);
      match events[0]
      case Literal(c) => StopPlaysOn(hist + [c], w0 + 1, size, events[1..], e);
      case Copy(length, offset) =>
        var n := Min(LzWindow.Mod(length, size), size - w0);
        StopPlaysOn(Repeat(hist, Distance(offset, size), n), w0 + n, size, events[1..], e);
      case _ => StopPlaysOn(hist, w0, size, events[1..], e);
    }
  }

  /** Reading a written RAR 5 file, in whatever fills its window takes, outputs what was meant: the history of the
      tokens written, with the filters applied each to its interval; exactly what the tokens mean when no copy crosses
      the window's end or is as long as the window. */
  lemma WrittenOutput(texts: seq<Text>, codes: Codes, offsetSize: nat, rest: seq<byte>, hist: seq<byte>, w: nat,
                      size: nat)
    requires offsetSize <= Lz50.MAX_OFFSET_SIZE && Lz50.Sized(codes) && Prefix(codes)
    requires var s := StartOf([], codes, offsetSize); FileWritable(texts, codes, s.past, s.table)
    requires 0 < size <= |hist| && w <= size
    ensures var s := StartOf([], codes, offsetSize);
      var story := FileOf(texts, codes, s.past, s.table);
      var f := AllOf(StartOf(story.bytes + rest, codes, offsetSize));
      var src, all := SourceOf(f, hist, w), PlayOn(hist, w, size, story.events);
      && Readable(src, size, |hist|) && Ending(src) && f.events == story.events
      && (all == Meant(hist, size, story.events) <==> WholeOn(w, size, story.events))
      && var t := AllOutput(src, size, |hist|, 0);
      && |hist| <= t.origin <= |all| && Render(all, |hist|, t.origin, t.groups) == Some(t.out)
      && (t.e == EndOfFile ==> t.s.hist == all)
      && ((forall k :: 0 <= k < |story.events| ==> !story.events[k].Queued?) ==>
            t.e == EndOfFile && t.out == all[|hist|..])
  {
    hide AllOf;
    hide FileOf;
    hide FileWritable;
    hide Prefix;
    hide PlayOn;
    hide Meant;
    hide WholeOn;
    hide AllOutput;
    hide Render;
    hide Ending;
    var s := StartOf([], codes, offsetSize);
    var story := FileOf(texts, codes, s.past, s.table);
    var f := AllOf(StartOf(story.bytes + rest, codes, offsetSize));
    FileEntire(texts, codes, offsetSize, rest);
    AllGoing(StartOf(story.bytes + rest, codes, offsetSize));
    FileOutput(f, hist, w, size);
    AllCopiesWhole(hist, w, size, story.events);
  }
}

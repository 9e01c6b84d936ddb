/** Filling the window from a run of tokens: what any of the token decoders does, given what one token comes to. */
module LzRuns {
  import opened Machine
  import opened Bits
  import opened BitStrings
  import opened Canonical
  import FilterQueue
  import opened LzWindow
  import opened DR = DecodeReaders
  import opened Decodings

  /** The four latest offsets, the last one first. */
  type Offsets = s: seq<nat> | |s| == 4 witness [0, 0, 0, 0]

  /** The offset moved to the front, those before it one back. */
  function Fronted(offset: Offsets, i: nat): (r: Offsets)
    requires i < 4
    ensures r[0] == offset[i]
  {
    [offset[i]] + offset[..i] + offset[i + 1..]
  }

  /** A new offset before the others; the last is forgotten. */
  function Pushed(offset: Offsets, o: nat): Offsets {
    [o] + offset[..3]
  }

  lemma PushedFirst(offset: Offsets, o: nat)
    ensures Pushed(offset, o)[0] == o
  {}

  lemma Associate(a: seq<Bit>, b: seq<Bit>, c: seq<Bit>, rest: seq<Bit>)
    ensures a + b + rest == a + (b + rest) && a + (b + c) + rest == a + b + c + rest == a + (b + (c + rest))
  {}

  lemma HighExtra(extra: nat, k: nat)
    requires extra < Pow2(k) && k >= 4
    ensures extra / 16 < Pow2(k - 4) && extra == 16 * (extra / 16) + extra % 16
  {
    assert Pow2(k) == 4 * Pow2(k - 2) && Pow2(k - 2) == 4 * Pow2(k - 4);
  }

  /** The offset before, by its place, that is at place j after the one at place i has come to the front. */
  function OldPlace(i: nat, j: nat): nat { if j == 0 then i else if j <= i then j - 1 else j }

  /** The codes of a block. */
  datatype Codes = Codes(main: Lengths, offset: Lengths, low: Lengths, length: Lengths)

  ghost predicate Prefix(c: Codes) {
    Kraft(c.main) && Kraft(c.offset) && Kraft(c.low) && Kraft(c.length)
  }

  ghost predicate HasCode(lengths: Lengths, s: nat) {
    s < |lengths| && lengths[s] > 0
  }

  datatype Action = Literally(c: byte) | Match(length: nat, offset: nat)

  /** What the next bits come to: something to write, or a reason to stop; what is remembered after it, and the bits
      left. */
  datatype Outcome<S, E> = Act(action: Action, past: S, rest: seq<Bit>) | Halt(end: E, past: S, rest: seq<Bit>)

  /** Whatever is written takes bits. */
  ghost predicate Shrinks<S(!new), E>(step: (S, seq<Bit>) -> Outcome<S, E>) {
    forall past: S, ahead: seq<Bit> :: step(past, ahead).Act? ==> |step(past, ahead).rest| < |ahead|
  }

  /** What an action asks of the window. */
  function EventOf(a: Action): Event {
    if a.Literally? then Literal(a.c) else Copy(a.length, a.offset)
  }

  ghost predicate Fillers(events: seq<Event>) {
    forall k :: 0 <= k < |events| ==> events[k].Literal? || events[k].Copy?
  }

  lemma FillersMore(done: seq<Event>, action: Action)
    ensures Fillers(done) ==> Fillers(done + [EventOf(action)])
  {}

  /** How much of the window an event fills. */
  function Fills(e: Event, room: nat, size: nat): (n: nat)
    requires size > 0 && (e.Literal? || e.Copy?) && room > 0
    ensures n <= room
  {
    if e.Literal? then 1 else Min(Mod(e.length, size), room)
  }

  /** A fill's events, what is remembered after them, the bits left, and why it stopped: None when the window is
      full. */
  datatype Ran<S, E> = Ran(events: seq<Event>, past: S, rest: seq<Bit>, end: Option<E>)

  /** Read on while the window has room. */
  ghost function Run<S(!new), E>(step: (S, seq<Bit>) -> Outcome<S, E>, past: S, ahead: seq<Bit>, room: nat,
                                 size: nat): (r: Ran<S, E>)
    requires Shrinks(step) && size > 0
    ensures Fillers(r.events)
    decreases |ahead|
  {
    if room == 0 then Ran([], past, ahead, None)
    else
      match step(past, ahead)
      case Halt(end, past', rest) => Ran([], past', rest, Some(end))
      case Act(action, past', rest) =>
        var e := EventOf(action);
        var r := Run(step, past', rest, room - Fills(e, room, size), size);
        r.(events := [e] + r.events)
  }

  lemma RunOn<S(!new), E>(step: (S, seq<Bit>) -> Outcome<S, E>, past: S, ahead: seq<Bit>, room: nat, size: nat)
    requires Shrinks(step) && size > 0 && room > 0 && step(past, ahead).Act?
    ensures var o := step(past, ahead);
      var r := Run(step, o.past, o.rest, room - Fills(EventOf(o.action), room, size), size);
      Run(step, past, ahead, room, size) == r.(events := [EventOf(o.action)] + r.events)
  {}

  lemma RunStops<S(!new), E>(step: (S, seq<Bit>) -> Outcome<S, E>, past: S, ahead: seq<Bit>, room: nat, size: nat)
    requires Shrinks(step) && size > 0 && room > 0 && step(past, ahead).Halt?
    ensures var o := step(past, ahead);
      Run(step, past, ahead, room, size) == Ran([], o.past, o.rest, Some(o.end))
  {}

  /** A run that stops short of a full window stops at a step that halts, with no more bits than it began with. */
  lemma {:induction false} RunEnds<S(!new), E>(step: (S, seq<Bit>) -> Outcome<S, E>, past: S, ahead: seq<Bit>,
                                               room: nat, size: nat)
    returns (p: S, s: seq<Bit>)
    requires Shrinks(step) && size > 0
    ensures var r := Run(step, past, ahead, room, size);
      && |s| <= |ahead| && (r.end == None ==> r.rest == s)
      && (r.end.Some? ==> step(p, s) == Halt(r.end.value, r.past, r.rest))
    decreases |ahead|
  {
    hide Fills;
    p, s := past, ahead;
    if room > 0 && step(past, ahead).Act? {
      var o := step(past, ahead);
      RunOn(step, past, ahead, room, size);
      p, s := RunEnds(step, o.past, o.rest, room - Fills(EventOf(o.action), room, size), size);
    }
  }

  /** What each step keeps, a whole run keeps; and what holds of each step's event holds of all events. */
  lemma {:induction false} RunKeeps<S(!new), E>(step: (S, seq<Bit>) -> Outcome<S, E>, kept: S -> bool,
                                                good: Event -> bool, past: S, ahead: seq<Bit>, room: nat, size: nat)
    requires Shrinks(step) && size > 0 && kept(past)
    requires forall p: S, s: seq<Bit> | kept(p) ::
      kept(step(p, s).past) && (step(p, s).Act? ==> good(EventOf(step(p, s).action)))
    ensures var r := Run(step, past, ahead, room, size);
      kept(r.past) && forall k :: 0 <= k < |r.events| ==> good(r.events[k])
    decreases |ahead|
  {
    hide Fills;
    if room > 0 && step(past, ahead).Act? {
      var o := step(past, ahead);
      RunKeeps(step, kept, good, o.past, o.rest, room - Fills(EventOf(o.action), room, size), size);
      RunOn(step, past, ahead, room, size);
    }
  }

  // Reading in several fills.

  /** All that the bits say, whatever the window. */
  ghost function Entire<S(!new), E>(step: (S, seq<Bit>) -> Outcome<S, E>, past: S, ahead: seq<Bit>): (r: Ran<S, E>)
    requires Shrinks(step)
    ensures Fillers(r.events) && r.end.Some?
    decreases |ahead|
  {
    match step(past, ahead)
    case Halt(end, past', rest) => Ran([], past', rest, Some(end))
    case Act(action, past', rest) => Following([EventOf(action)], Entire(step, past', rest))
  }

  /** Events before those of a run. */
  function Following<S, E>(events: seq<Event>, r: Ran<S, E>): Ran<S, E> { r.(events := events + r.events) }

  lemma FollowingNone<S, E>(r: Ran<S, E>)
    ensures Following([], r) == r
  {
    assert [] + r.events == r.events;
  }

  lemma FollowingTwice<S, E>(a: seq<Event>, b: seq<Event>, r: Ran<S, E>)
    ensures Following(a, Following(b, r)) == Following(a + b, r)
  {
    assert a + (b + r.events) == a + b + r.events;
  }

  lemma EntireOn<S(!new), E>(step: (S, seq<Bit>) -> Outcome<S, E>, past: S, ahead: seq<Bit>)
    requires Shrinks(step)
    ensures match step(past, ahead) {
        case Halt(end, past', rest) => Entire(step, past, ahead) == Ran([], past', rest, Some(end))
        case Act(action, past', rest) =>
          Entire(step, past, ahead) == Following([EventOf(action)], Entire(step, past', rest))
      }
  {}

  /** It stops at a step that halts, with no more bits than it began with. */
  lemma {:induction false} EntireEnds<S(!new), E>(step: (S, seq<Bit>) -> Outcome<S, E>, past: S, ahead: seq<Bit>)
    returns (p: S, s: seq<Bit>)
    requires Shrinks(step)
    ensures var r := Entire(step, past, ahead); |s| <= |ahead| && step(p, s) == Halt(r.end.value, r.past, r.rest)
    decreases |ahead|
  {
    p, s := past, ahead;
    EntireOn(step, past, ahead);
    if step(past, ahead).Act? {
      p, s := EntireEnds(step, step(past, ahead).past, step(past, ahead).rest);
    }
  }

  /** A fill reads all there is, or a part of it that fills the window and leaves exactly the rest to be read. When
      there was room, the part takes bits. */
  lemma {:induction false} RunIsPart<S(!new), E>(step: (S, seq<Bit>) -> Outcome<S, E>, past: S, ahead: seq<Bit>,
                                                 room: nat, size: nat)
    requires Shrinks(step) && size > 0
    ensures var r := Run(step, past, ahead, room, size);
      && Entire(step, past, ahead) == (if r.end.Some? then r else Following(r.events, Entire(step, r.past, r.rest)))
      && (r.end == None && room > 0 ==> |r.rest| < |ahead|) && (r.end == None ==> |r.rest| <= |ahead|)
    decreases |ahead|
  {
    hide Fills;
    hide Run;
    hide Entire;
    hide Shrinks;
    hide Following;
    EntireOn(step, past, ahead);
    if room == 0 {
      RunFull(step, past, ahead, size);
      FollowingNone(Entire(step, past, ahead));
    } else if step(past, ahead).Halt? {
      RunStops(step, past, ahead, room, size);
    } else {
      var o := step(past, ahead);
      var e := EventOf(o.action);
      var left := room - Fills(e, room, size);
      RunOn(step, past, ahead, room, size);
      ShrinksBy(step, past, ahead);
      RunIsPart(step, o.past, o.rest, left, size);
      var r := Run(step, o.past, o.rest, left, size);
      FollowingIs([e], r);
      FollowingTwice([e], r.events, Entire(step, r.past, r.rest));
    }
  }

  lemma RunFull<S(!new), E>(step: (S, seq<Bit>) -> Outcome<S, E>, past: S, ahead: seq<Bit>, size: nat)
    requires Shrinks(step) && size > 0
    ensures Run(step, past, ahead, 0, size) == Ran([], past, ahead, None)
  {}

  lemma ShrinksBy<S(!new), E>(step: (S, seq<Bit>) -> Outcome<S, E>, past: S, ahead: seq<Bit>)
    requires Shrinks(step) && step(past, ahead).Act?
    ensures |step(past, ahead).rest| < |ahead|
  {}

  lemma FollowingIs<S, E>(events: seq<Event>, r: Ran<S, E>)
    ensures Following(events, r) == r.(events := events + r.events)
  {}

  /** Fills one after another, each with its room, until one stops short of a full window. */
  ghost function InFills<S(!new), E>(step: (S, seq<Bit>) -> Outcome<S, E>, past: S, ahead: seq<Bit>, rooms: seq<nat>,
                                     size: nat): Ran<S, E>
    requires Shrinks(step) && size > 0
    decreases |rooms|
  {
    if rooms == [] then Ran([], past, ahead, None)
    else
      var r := Run(step, past, ahead, rooms[0], size);
      if r.end.Some? then r else Following(r.events, InFills(step, r.past, r.rest, rooms[1..], size))
  }

  /** However the window cuts the reading into fills, they read all there is, or a part and leave exactly the rest; and
      enough fills with room read all. */
  lemma {:induction false} FillsRead<S(!new), E>(step: (S, seq<Bit>) -> Outcome<S, E>, past: S, ahead: seq<Bit>,
                                                 rooms: seq<nat>, size: nat)
    requires Shrinks(step) && size > 0
    ensures var f := InFills(step, past, ahead, rooms, size);
      && Entire(step, past, ahead) == (if f.end.Some? then f else Following(f.events, Entire(step, f.past, f.rest)))
      && (0 !in rooms && |rooms| > |ahead| ==> f.end.Some?)
    decreases |rooms|
  {
    hide Run;
    hide Entire;
    hide Shrinks;
    hide Following;
    if rooms == [] {
      FollowingNone(Entire(step, past, ahead));
    } else {
      RunIsPart(step, past, ahead, rooms[0], size);
      var r := Run(step, past, ahead, rooms[0], size);
      if r.end == None {
        FillsRead(step, r.past, r.rest, rooms[1..], size);
        var f := InFills(step, r.past, r.rest, rooms[1..], size);
        FollowingIs(r.events, f);
        FollowingTwice(r.events, f.events, Entire(step, f.past, f.rest));
      }
    }
  }

  // Reading what was written.

  /** The bits of one token, and what they come to. */
  datatype Piece<S> = Piece(bits: seq<Bit>, action: Action, past: S)

  /** Reading the bits gives this action and leaves this to remember, whatever follows. */
  ghost predicate Reads<S(!new), E(!new)>(step: (S, seq<Bit>) -> Outcome<S, E>, past: S, p: Piece<S>) {
    forall rest: seq<Bit> :: step(past, p.bits + rest) == Act(p.action, p.past, rest)
  }

  ghost predicate AllRead<S(!new), E(!new)>(step: (S, seq<Bit>) -> Outcome<S, E>, past: S, pieces: seq<Piece<S>>) {
    pieces != [] ==> Reads(step, past, pieces[0]) && AllRead(step, pieces[0].past, pieces[1..])
  }

  function BitsOf<S>(pieces: seq<Piece<S>>): seq<Bit> {
    if pieces == [] then [] else pieces[0].bits + BitsOf(pieces[1..])
  }

  function EventsOf<S>(pieces: seq<Piece<S>>): (events: seq<Event>)
    ensures |events| == |pieces| && forall k :: 0 <= k < |events| ==> events[k] == EventOf(pieces[k].action)
  {
    if pieces == [] then [] else [EventOf(pieces[0].action)] + EventsOf(pieces[1..])
  }

  function PastOf<S>(past: S, pieces: seq<Piece<S>>): S {
    if pieces == [] then past else pieces[|pieces| - 1].past
  }

  lemma PastLater<S>(p: Piece<S>, pieces: seq<Piece<S>>, past: S)
    ensures PastOf(past, [p] + pieces) == PastOf(p.past, pieces)
  {}

  /** Tokens that were written, one after another, are read as exactly what they come to, up to what follows them. */
  lemma {:induction false} PiecesEntire<S(!new), E(!new)>(step: (S, seq<Bit>) -> Outcome<S, E>, past: S,
                                                          pieces: seq<Piece<S>>, tail: seq<Bit>)
    requires Shrinks(step) && AllRead(step, past, pieces) && step(PastOf(past, pieces), tail).Halt?
    ensures var o := step(PastOf(past, pieces), tail);
      Entire(step, past, BitsOf(pieces) + tail) == Ran(EventsOf(pieces), o.past, o.rest, Some(o.end))
    decreases |pieces|
  {
    hide Entire;
    EntireOn(step, past, BitsOf(pieces) + tail);
    if pieces == [] {
      assert BitsOf(pieces) + tail == tail;
    } else {
      var p := pieces[0];
      assert BitsOf(pieces) + tail == p.bits + (BitsOf(pieces[1..]) + tail);
      PiecesEntire(step, p.past, pieces[1..], tail);
    }
  }

  /** What came of reading in fills: all of it, or some of its events, after which the others are still ahead. */
  ghost predicate Filled<S(!new), E>(step: (S, seq<Bit>) -> Outcome<S, E>, f: Ran<S, E>, all: Ran<S, E>)
    requires Shrinks(step)
  {
    if f.end.Some? then f == all
    else f.events <= all.events && Entire(step, f.past, f.rest) == all.(events := all.events[|f.events|..])
  }

  /** Tokens that were written are read back in any sequence of fills, wherever the window is full between them. */
  lemma RunReads<S(!new), E(!new)>(step: (S, seq<Bit>) -> Outcome<S, E>, past: S, pieces: seq<Piece<S>>, tail: seq<Bit>,
                                   rooms: seq<nat>, size: nat)
    requires Shrinks(step) && size > 0 && AllRead(step, past, pieces) && step(PastOf(past, pieces), tail).Halt?
    ensures var o, ahead := step(PastOf(past, pieces), tail), BitsOf(pieces) + tail;
      var f := InFills(step, past, ahead, rooms, size);
      && Filled(step, f, Ran(EventsOf(pieces), o.past, o.rest, Some(o.end)))
      && (0 !in rooms && |rooms| > |ahead| ==> f.end.Some?)
  {
    hide Entire;
    hide InFills;
    var ahead := BitsOf(pieces) + tail;
    PiecesEntire(step, past, pieces, tail);
    FillsRead(step, past, ahead, rooms, size);
    var f := InFills(step, past, ahead, rooms, size);
    if f.end == None {
      var later := Entire(step, f.past, f.rest);
      assert EventsOf(pieces)[|f.events|..] == later.events;
    }
  }

  // Part way through a run.

  /** A run that gives `all` in the end: after the events done, what is left to run. */
  ghost predicate Running<S(!new), E>(step: (S, seq<Bit>) -> Outcome<S, E>, past: S, ahead: seq<Bit>, room: nat,
                                      size: nat, done: seq<Event>, all: Ran<S, E>) {
    && Shrinks(step) && size > 0
    && var r := Run(step, past, ahead, room, size);
    all == Ran(done + r.events, r.past, r.rest, r.end)
  }

  lemma RunningStart<S(!new), E>(step: (S, seq<Bit>) -> Outcome<S, E>, past: S, ahead: seq<Bit>, room: nat, size: nat)
    requires Shrinks(step) && size > 0
    ensures Running(step, past, ahead, room, size, [], Run(step, past, ahead, room, size))
  {
    hide Run;
    assert [] + Run(step, past, ahead, room, size).events == Run(step, past, ahead, room, size).events;
  }

  lemma RunningOn<S(!new), E>(step: (S, seq<Bit>) -> Outcome<S, E>, past: S, ahead: seq<Bit>, room: nat, size: nat,
                              done: seq<Event>, all: Ran<S, E>)
    requires Running(step, past, ahead, room, size, done, all) && room > 0 && step(past, ahead).Act?
    ensures var o := step(past, ahead);
      var e := EventOf(o.action);
      Running(step, o.past, o.rest, room - Fills(e, room, size), size, done + [e], all)
  {
    hide Run;
    hide Fills;
    hide Shrinks;
    RunOn(step, past, ahead, room, size);
    var o := step(past, ahead);
    var e := EventOf(o.action);
    var later := Run(step, o.past, o.rest, room - Fills(e, room, size), size).events;
    assert done + ([e] + later) == done + [e] + later;
  }

  /** A step that halts ends the run. */
  lemma RunningStops<S(!new), E>(step: (S, seq<Bit>) -> Outcome<S, E>, past: S, ahead: seq<Bit>, room: nat, size: nat,
                                 done: seq<Event>, all: Ran<S, E>)
    requires Running(step, past, ahead, room, size, done, all) && room > 0 && step(past, ahead).Halt?
    ensures var o := step(past, ahead); all == Ran(done, o.past, o.rest, Some(o.end))
  {
    RunStops(step, past, ahead, room, size);
  }

  /** A full window ends it. */
  lemma RunningFull<S(!new), E>(step: (S, seq<Bit>) -> Outcome<S, E>, past: S, ahead: seq<Bit>, size: nat,
                                done: seq<Event>, all: Ran<S, E>)
    requires Running(step, past, ahead, 0, size, done, all)
    ensures all == Ran(done, past, ahead, None)
  {}

  // The window.

  /** The window's history and place after events. */
  ghost predicate Played(h0: seq<byte>, w0: nat, size: nat, events: seq<Event>, hist: seq<byte>, w: nat) {
    0 < size <= |h0| && w0 <= size && hist == Play(h0, w0, size, events) && w == w0 + |hist| - |h0|
  }

  lemma PlayedNone(hist: seq<byte>, w: nat, size: nat)
    requires 0 < size <= |hist| && w <= size
    ensures Played(hist, w, size, [], hist, w)
  {}

  /** One event's history. */
  lemma PlayOne(hist: seq<byte>, w: nat, size: nat, action: Action)
    requires 0 < size <= |hist| && w < size
    ensures Play(hist, w, size, [EventOf(action)]) ==
      if action.Literally? then hist + [action.c]
        else Repeat(hist, Distance(action.offset, size), Min(Mod(action.length, size), size - w))
    ensures Fills(EventOf(action), size - w, size) == if action.Literally? then 1
      else Min(Mod(action.length, size), size - w)
  {}

  /** Write what an action says to the window. */
  method WriteAction(dr: DecodeReader, action: Action, ghost h0: seq<byte>, ghost w0: nat, ghost done: seq<Event>)
    requires dr.Window() && dr.w < dr.size
    requires Played(h0, w0, dr.size, done, dr.hist, dr.w)
    modifies dr`w, dr`hist, dr.win
    ensures dr.Window() && dr.w == old(dr.w) + Fills(EventOf(action), dr.size - old(dr.w), dr.size)
    ensures Played(h0, w0, dr.size, done + [EventOf(action)], dr.hist, dr.w)
  {
    hide Ring;
    hide Play;
    PlayOne(dr.hist, dr.w, dr.size, action);
    PlayMore(h0, w0, dr.size, done, EventOf(action));
    if action.Literally? {
      dr.WriteByte(action.c);
    } else {
      dr.CopyBytes(action.length, action.offset);
    }
  }

  lemma WindowSize(dr: DecodeReader)
    requires dr.Window()
    ensures 0 < dr.size <= |dr.hist| && dr.w <= dr.size
  {}

  lemma {:induction false} NoRecordings(at: nat, w: nat, size: nat, b: seq<Event>, consumed: nat, last: int)
    requires 0 < size && w <= size && Fillers(b)
    ensures Recordings(at, w, size, b, consumed, last) == []
    decreases |b|
  {
    hide LzWindow.Mod;
    if b != [] {
      if b[0].Literal? {
        if w < size { NoRecordings(at + 1, w + 1, size, b[1..], consumed, last); }
      } else {
        var n := Min(Mod(b[0].length, size), size - w);
        NoRecordings(at + n, w + n, size, b[1..], consumed, last);
      }
    }
  }

  /** Bytes and copies queue no filters. */
  lemma {:induction false} RecordingsFilled(at: nat, w: nat, size: nat, a: seq<Event>, b: seq<Event>, consumed: nat,
                                            last: int)
    requires 0 < size && w <= size && Fillers(b)
    ensures Recordings(at, w, size, a + b, consumed, last) == Recordings(at, w, size, a, consumed, last)
    decreases |a|
  {
    hide LzWindow.Mod;
    hide FilterQueue.Recorded;
    if a == [] {
      assert a + b == b;
      NoRecordings(at, w, size, b, consumed, last);
    } else {
      assert (a + b)[1..] == a[1..] + b;
      match a[0]
      case Literal(_) => if w < size { RecordingsFilled(at + 1, w + 1, size, a[1..], b, consumed, last); }
      case Copy(length, _) =>
        var n := Min(Mod(length, size), size - w);
        RecordingsFilled(at + n, w + n, size, a[1..], b, consumed, last);
      case Queued(block) =>
        var start := FilterQueue.Recorded(at + block.offset, consumed, last, size);
        RecordingsFilled(at, w, size, a[1..], b, consumed, start);
      case Stop(_) => RecordingsFilled(at, w, size, a[1..], b, consumed, last);
    }
  }

  /** Progress through what a run wrote. */
  lemma ProgressFilled(h0: seq<byte>, w0: nat, size: nat, accepted: seq<Event>, consumed: nat, last: int,
                       hist: seq<byte>, w: nat,
                       added: seq<FilterQueue.Interval>, lastNow: int, events: seq<Event>, hist': seq<byte>, w': nat)
    requires Progress(h0, w0, size, accepted, consumed, last, hist, w, added, lastNow)
    requires Played(hist, w, size, events, hist', w') && Fillers(events)
    ensures Progress(h0, w0, size, accepted + events, consumed, last, hist', w', added, lastNow)
  {
    hide Play;
    hide Recordings;
    PlayJoin(h0, w0, size, accepted, events);
    RecordingsFilled(|h0|, w0, size, accepted, events, consumed, last);
  }
}

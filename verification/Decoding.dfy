/** What a decoder does to a window and a filter queue, and what a reader makes of it, on absolute stream positions. */
module Decodings {
  import opened Machine
  import opened LzWindow
  import opened FilterQueue

  const MIN_WINDOW := 0x40000
  const MAX_QUEUED := 8192

  datatype Error = EndOfFile | TooManyFilters | InvalidFilter | FilterFailed | DecoderFailed(code: nat)

  /** What a decoder does to the reader: one byte, one copy, one filter, or the end of a fill. */
  datatype Event = Literal(c: byte) | Copy(length: int, offset: int) | Queued(block: FilterBlock)
    | Stop(error: Option<Error>)

  /** The history after events that all found room: copies are clipped at the end of the window. */
  function Play(hist: seq<byte>, w: nat, size: nat, events: seq<Event>): (r: seq<byte>)
    requires 0 < size <= |hist| && w <= size
    ensures |hist| <= |r| <= |hist| + size - w && r[..|hist|] == hist
    decreases |events|
  {
    if events == [] then hist
    else
      match events[0]
      case Literal(c) => if w < size then Play(hist + [c], w + 1, size, events[1..]) else hist
      case Copy(length, offset) =>
        var n := Min(Mod(length, size), size - w);
        Play(Repeat(hist, Distance(offset, size), n), w + n, size, events[1..])
      case _ => Play(hist, w, size, events[1..])
  }

  /** The intervals recorded for the filters among events that all went through: `at` is how far the history reaches,
      `consumed` how much of a block was taken already, and `last` where the last queued block starts. */
  function Recordings(at: nat, w: nat, size: nat, events: seq<Event>, consumed: nat, last: int): seq<Interval>
    requires 0 < size && w <= size
    decreases |events|
  {
    if events == [] then []
    else
      match events[0]
      case Literal(_) => if w < size then Recordings(at + 1, w + 1, size, events[1..], consumed, last) else []
      case Copy(length, _) =>
        var n := Min(Mod(length, size), size - w);
        Recordings(at + n, w + n, size, events[1..], consumed, last)
      case Queued(block) =>
        var i := Interval(Recorded(at + block.offset, consumed, last, size), Mod(block.length, size), block.filter);
        [i] + Recordings(at, w, size, events[1..], consumed, i.start)
      case Stop(_) => Recordings(at, w, size, events[1..], consumed, last)
  }

  /** Where the last of the intervals starts. */
  function LastOf(last: int, intervals: seq<Interval>): int {
    if intervals == [] then last else intervals[|intervals| - 1].start
  }

  /** The first event, and then the others. */
  lemma PlayFirst(hist: seq<byte>, w: nat, size: nat, events: seq<Event>)
    requires 0 < size <= |hist| && w < size && events != []
    ensures var h := Play(hist, w, size, [events[0]]);
      Play(hist, w, size, events) == Play(h, w + |h| - |hist|, size, events[1..])
  {
    hide Mod;
    hide Distance;
    hide Repeat;
    assert [events[0]][1..] == [];
  }

  lemma RecordingsFirst(hist: seq<byte>, w: nat, size: nat, events: seq<Event>, consumed: nat, last: int)
    requires 0 < size <= |hist| && w < size && events != []
    ensures var h := Play(hist, w, size, [events[0]]);
      var one := Recordings(|hist|, w, size, [events[0]], consumed, last);
      Recordings(|hist|, w, size, events, consumed, last)
        == one + Recordings(|h|, w + |h| - |hist|, size, events[1..], consumed, LastOf(last, one))
  {
    hide Mod;
    hide Distance;
    hide Repeat;
    hide Recorded;
    assert [events[0]][1..] == [];
  }

  lemma {:induction false} RecordingsMore(hist: seq<byte>, w: nat, size: nat, events: seq<Event>, e: Event,
                                          consumed: nat, last: int)
    requires 0 < size <= |hist| && w <= size && w + |Play(hist, w, size, events)| - |hist| < size
    ensures var r := Play(hist, w, size, events);
      var done := Recordings(|hist|, w, size, events, consumed, last);
      Recordings(|hist|, w, size, events + [e], consumed, last)
        == done + Recordings(|r|, w + |r| - |hist|, size, [e], consumed, LastOf(last, done))
    decreases |events|
  {
    hide Play;
    hide Recordings;
    hide LastOf;
    if events == [] {
      assert events + [e] == [e];
      PlayNone(hist, w, size);
      RecordingsNone(|hist|, w, size, consumed, last);
    } else {
      assert (events + [e])[1..] == events[1..] + [e];
      PlayFirst(hist, w, size, events);
      RecordingsFirst(hist, w, size, events, consumed, last);
      RecordingsFirst(hist, w, size, events + [e], consumed, last);
      var h := Play(hist, w, size, [events[0]]);
      var one := Recordings(|hist|, w, size, [events[0]], consumed, last);
      RecordingsMore(h, w + |h| - |hist|, size, events[1..], e, consumed, LastOf(last, one));
      LastOfMore(last, one, Recordings(|h|, w + |h| - |hist|, size, events[1..], consumed, LastOf(last, one)));
    }
  }

  lemma RecordingsNone(at: nat, w: nat, size: nat, consumed: nat, last: int)
    requires 0 < size && w <= size
    ensures Recordings(at, w, size, [], consumed, last) == [] && LastOf(last, []) == last
  {}

  lemma LastOfOne(last: int, intervals: seq<Interval>)
    requires |intervals| <= 1
    ensures LastOf(last, intervals) == if intervals == [] then last else intervals[0].start
  {}

  lemma LastOfMore(last: int, a: seq<Interval>, b: seq<Interval>)
    ensures LastOf(last, a + b) == LastOf(LastOf(last, a), b)
  {}

  lemma RecordingsOne(at: nat, w: nat, size: nat, e: Event, consumed: nat, last: int)
    requires w < size
    ensures Recordings(at, w, size, [e], consumed, last) ==
      if e.Queued? then [Interval(Recorded(at + e.block.offset, consumed, last, size), Mod(e.block.length, size),
                                  e.block.filter)] else []
  {}

  lemma PlayNone(hist: seq<byte>, w: nat, size: nat)
    requires 0 < size <= |hist| && w <= size
    ensures Play(hist, w, size, []) == hist
  {}

  lemma {:induction false} PlayMore(hist: seq<byte>, w: nat, size: nat, events: seq<Event>, e: Event)
    requires 0 < size <= |hist| && w <= size && w + |Play(hist, w, size, events)| - |hist| < size
    ensures var r := Play(hist, w, size, events);
      Play(hist, w, size, events + [e]) == Play(r, w + |r| - |hist|, size, [e])
    decreases |events|
  {
    hide Play;
    if events == [] {
      assert events + [e] == [e];
      PlayNone(hist, w, size);
    } else {
      assert (events + [e])[1..] == events[1..] + [e];
      PlayFirst(hist, w, size, events);
      PlayFirst(hist, w, size, events + [e]);
      var h := Play(hist, w, size, [events[0]]);
      PlayMore(h, w + |h| - |hist|, size, events[1..], e);
    }
  }

  lemma {:induction false} PlayFull(hist: seq<byte>, size: nat, events: seq<Event>)
    requires 0 < size <= |hist|
    ensures Play(hist, size, size, events) == hist
    decreases |events|
  {
    hide Distance;
    hide Mod;
    if events != [] && !events[0].Literal? {
      if events[0].Copy? {
        RepeatNone(hist, Distance(events[0].offset, size));
      }
      PlayFull(hist, size, events[1..]);
    }
  }

  lemma {:induction false} PlayJoin(hist: seq<byte>, w: nat, size: nat, a: seq<Event>, b: seq<Event>)
    requires 0 < size <= |hist| && w <= size
    ensures var h := Play(hist, w, size, a);
      Play(hist, w, size, a + b) == Play(h, w + |h| - |hist|, size, b)
    decreases |a|
  {
    hide Play;
    if a == [] {
      assert a + b == b;
      PlayNone(hist, w, size);
    } else if w == size {
      PlayFull(hist, size, a);
      PlayFull(hist, size, b);
      PlayFull(hist, size, a + b);
    } else {
      assert (a + b)[1..] == a[1..] + b;
      PlayFirst(hist, w, size, a);
      PlayFirst(hist, w, size, a + b);
      var h := Play(hist, w, size, [a[0]]);
      PlayJoin(h, w + |h| - |hist|, size, a[1..], b);
    }
  }

  /** The history after events with every copy in full: what a decoder means by them. */
  function Meant(hist: seq<byte>, size: nat, events: seq<Event>): (r: seq<byte>)
    requires 0 < size <= |hist|
    ensures |r| == |hist| + Total(events)
    decreases |events|
  {
    if events == [] then hist
    else
      match events[0]
      case Literal(c) => Meant(hist + [c], size, events[1..])
      case Copy(length, offset) =>
        Meant(if length > 0 then Repeat(hist, Distance(offset, size), length) else hist, size, events[1..])
      case _ => Meant(hist, size, events[1..])
  }

  function Total(events: seq<Event>): nat {
    if events == [] then 0
    else
      (match events[0]
       case Literal(_) => 1
       case Copy(length, _) => if length > 0 then length else 0
       case _ => 0) + Total(events[1..])
  }

  /** Every byte finds room, and no copy crosses the end of the window or is as long as the window. */
  predicate Whole(w: nat, size: nat, events: seq<Event>)
    requires w <= size
    decreases |events|
  {
    if events == [] then true
    else
      match events[0]
      case Literal(_) => w < size && Whole(w + 1, size, events[1..])
      case Copy(length, _) => 0 <= length < size && w + length <= size && Whole(w + length, size, events[1..])
      case _ => Whole(w, size, events[1..])
  }

  /** The first event, when it is a copy. */
  lemma CopyFirst(hist: seq<byte>, w: nat, size: nat, events: seq<Event>)
    requires 0 < size <= |hist| && w <= size && events != [] && events[0].Copy? && events[0].length >= 0
    ensures var length, d := events[0].length, Distance(events[0].offset, size);
      var n := Min(Mod(length, size), size - w);
      && Play(hist, w, size, events) == Play(Repeat(hist, d, n), w + n, size, events[1..])
      && Meant(hist, size, events) == Meant(Repeat(hist, d, length), size, events[1..])
      && Total(events) == length + Total(events[1..])
      && (Whole(w, size, events) <==> n == length && Whole(w + n, size, events[1..])) && n <= length
  {
    hide Distance;
    hide Repeat;
    hide Mod;
    ModBelow(events[0].length, size);
    RepeatNone(hist, Distance(events[0].offset, size));
  }

  /** The first event, when it is not a copy and, if it is a byte, there is room. */
  lemma OtherFirst(hist: seq<byte>, w: nat, size: nat, events: seq<Event>)
    requires 0 < size <= |hist| && w <= size && events != [] && !events[0].Copy? && (events[0].Literal? ==> w < size)
    ensures var h, n := if events[0].Literal? then hist + [events[0].c] else hist, if events[0].Literal? then 1 else 0;
      && Play(hist, w, size, events) == Play(h, w + n, size, events[1..])
      && Meant(hist, size, events) == Meant(h, size, events[1..]) && Total(events) == n + Total(events[1..])
      && (Whole(w, size, events) <==> Whole(w + n, size, events[1..]))
  {}

  /** No event, or a byte without room. */
  lemma NoneFirst(hist: seq<byte>, w: nat, size: nat, events: seq<Event>)
    requires 0 < size <= |hist| && w <= size && (events == [] || (events[0].Literal? && w == size))
    ensures Play(hist, w, size, events) == hist
    ensures if events == [] then Meant(hist, size, events) == hist && Total(events) == 0 && Whole(w, size, events)
      else Total(events) > 0 && !Whole(w, size, events)
  {}

  lemma {:induction false} PlayLength(hist: seq<byte>, w: nat, size: nat, events: seq<Event>)
    requires 0 < size <= |hist| && w <= size
      && forall k :: 0 <= k < |events| && events[k].Copy? ==> events[k].length >= 0
    ensures |Play(hist, w, size, events)| <= |hist| + Total(events)
    ensures |Play(hist, w, size, events)| == |hist| + Total(events) ==> Whole(w, size, events)
    ensures Whole(w, size, events) ==> Play(hist, w, size, events) == Meant(hist, size, events)
    decreases |events|
  {
    hide Play;
    hide Meant;
    hide Whole;
    hide Total;
    if events == [] || (events[0].Literal? && w == size) {
      NoneFirst(hist, w, size, events);
    } else if events[0].Copy? {
      var d, n := Distance(events[0].offset, size), Min(Mod(events[0].length, size), size - w);
      CopyFirst(hist, w, size, events);
      PlayLength(Repeat(hist, d, n), w + n, size, events[1..]);
    } else {
      OtherFirst(hist, w, size, events);
      PlayLength(if events[0].Literal? then hist + [events[0].c] else hist, if events[0].Literal? then w + 1 else w,
                 size, events[1..]);
    }
  }

  /** The window's history is what the decoder means exactly when no copy crosses the window's end or is as long as the
      window. */
  lemma CopiesWhole(hist: seq<byte>, w: nat, size: nat, events: seq<Event>)
    requires 0 < size <= |hist| && w <= size
      && forall k :: 0 <= k < |events| && events[k].Copy? ==> events[k].length >= 0
    ensures Play(hist, w, size, events) == Meant(hist, size, events) <==> Whole(w, size, events)
  {
    hide Play;
    hide Meant;
    PlayLength(hist, w, size, events);
  }

  /** Three bytes before the window's end, a copy of five bytes writes three. */
  lemma CutExample(hist: seq<byte>)
    requires |hist| == MIN_WINDOW
    ensures |Play(hist, MIN_WINDOW - 3, MIN_WINDOW, [Copy(5, 1)])| == |hist| + 3
    ensures |Meant(hist, MIN_WINDOW, [Copy(5, 1)])| == |hist| + 5
  {
    assert [Copy(5, 1)][1..] == [];
  }

  lemma ModBelow(x: nat, m: nat)
    requires m > 0
    ensures Mod(x, m) <= x && (Mod(x, m) == x <==> x < m)
  {
    ModAtMost(x, m);
  }

  /** How far a fill has come: after the accepted events the history, the place, the intervals recorded and where the
      last starts. */
  ghost predicate Progress(h0: seq<byte>, w0: nat, size: nat, accepted: seq<Event>, consumed: nat, last: int,
                           hist: seq<byte>, w: nat, added: seq<Interval>, lastNow: int)
  {
    && 0 < size <= |h0| && w0 <= size && hist == Play(h0, w0, size, accepted) && w == w0 + |hist| - |h0|
    && added == Recordings(|h0|, w0, size, accepted, consumed, last) && lastNow == LastOf(last, added)
  }

  lemma ProgressStart(h0: seq<byte>, w0: nat, size: nat, consumed: nat, last: int)
    requires 0 < size <= |h0| && w0 <= size
    ensures Progress(h0, w0, size, [], consumed, last, h0, w0, [], last)
  {}

  lemma ProgressMeans(h0: seq<byte>, w0: nat, size: nat, accepted: seq<Event>, consumed: nat, last: int,
                      hist: seq<byte>, w: nat, added: seq<Interval>, lastNow: int)
    requires Progress(h0, w0, size, accepted, consumed, last, hist, w, added, lastNow)
    ensures 0 < size <= |h0| && w0 <= size && hist == Play(h0, w0, size, accepted)
    ensures added == Recordings(|h0|, w0, size, accepted, consumed, last)
  {}

  lemma ProgressMore(h0: seq<byte>, w0: nat, size: nat, accepted: seq<Event>, consumed: nat, last: int,
                     hist: seq<byte>, w: nat, added: seq<Interval>, lastNow: int, e: Event)
    requires Progress(h0, w0, size, accepted, consumed, last, hist, w, added, lastNow) && w < size
    ensures size <= |hist| && var h := Play(hist, w, size, [e]);
      var one := Recordings(|hist|, w, size, [e], consumed, lastNow);
      Progress(h0, w0, size, accepted + [e], consumed, last, h, w + |h| - |hist|, added + one, LastOf(lastNow, one))
  {
    hide Play;
    hide Recordings;
    hide LastOf;
    PlayMore(h0, w0, size, accepted, e);
    RecordingsMore(h0, w0, size, accepted, e, consumed, last);
    LastOfMore(last, added, Recordings(|hist|, w, size, [e], consumed, lastNow));
  }

  /** The event was a filter that the queue does not take. */
  predicate Refused(event: Event, stop: bool) { event.Queued? && stop }

  // A fill.

  /** Whether a queue of so many filters, the last of them starting at `last`, takes one more that is asked for
      there. */
  function Refusal(count: nat, last: int, asked: int, consumed: nat): Option<Error> {
    if count >= MAX_QUEUED then Some(TooManyFilters)
    else if count > 0 && last > asked - consumed then Some(InvalidFilter)
    else None
  }

  /** How many bytes an event writes. */
  function Writes(e: Event, w: nat, size: nat): (n: nat)
    requires w < size
    ensures w + n <= size
  {
    match e
    case Literal(_) => 1
    case Copy(length, _) => Min(Mod(length, size), size - w)
    case _ => 0
  }

  /** What a fill takes of a decoder's events, whether the last of them was refused, and what ended it. */
  datatype Decoding = Decoding(taken: nat, refused: bool, e: Option<Error>)

  function Later(d: Decoding, n: nat): Decoding { d.(taken := d.taken + n) }

  /** Events are taken until the window is full, a filter is refused, the decoder says stop, or it has nothing more to
      do. */
  function DecodingOf(at: nat, w: nat, size: nat, script: seq<Event>, consumed: nat, last: int,
                      count: nat): (d: Decoding)
    requires 0 < size && w <= size
    ensures d.taken <= |script| && (d.refused ==> d.taken > 0) && (w < size && d.taken == 0 ==> d.e == Some(EndOfFile))
    decreases |script|
  {
    if w == size then Decoding(0, false, None)
    else if script == [] then Decoding(0, false, Some(EndOfFile))
    else
      var event := script[0];
      if event.Stop? then Decoding(1, false, event.error)
      else if event.Queued? then
        var refusal := Refusal(count, last, at + event.block.offset, consumed);
        if refusal != None then Decoding(1, true, refusal)
        else
          Later(DecodingOf(at, w, size, script[1..], consumed, Recorded(at + event.block.offset, consumed, last, size),
                           count + 1), 1)
      else
        var n := Writes(event, w, size);
        Later(DecodingOf(at + n, w + n, size, script[1..], consumed, last, count), 1)
  }

  /** The first event of a fill, given what the queue says to it and where its last block starts then. */
  lemma DecodingStep(at: nat, w: nat, size: nat, script: seq<Event>, consumed: nat, last: int, count: nat,
                     e: Option<Error>, last': int)
    requires w < size && script != []
    requires script[0].Stop? ==> e == script[0].error
    requires script[0].Queued? ==> e == Refusal(count, last, at + script[0].block.offset, consumed)
    requires last' == if script[0].Queued? then Recorded(at + script[0].block.offset, consumed, last, size) else last
    ensures var d := DecodingOf(at, w, size, script, consumed, last, count);
      var n := Writes(script[0], w, size);
      if script[0].Stop? then d == Decoding(1, false, e)
      else if script[0].Queued? && e != None then d == Decoding(1, true, e)
      else d == Later(DecodingOf(at + n, w + n, size, script[1..], consumed, last',
                                 if script[0].Queued? then count + 1 else count), 1)
  {
    hide Refusal;
    hide Recorded;
  }

  function AcceptedOf(script: seq<Event>, d: Decoding): seq<Event>
    requires d.taken <= |script| && (d.refused ==> d.taken > 0)
  {
    script[..if d.refused then d.taken - 1 else d.taken]
  }

  // Events that all go through.

  /** The queue takes event k, if it is a filter. */
  ghost predicate UnrefusedAt(hist: seq<byte>, w: nat, size: nat, events: seq<Event>, consumed: nat, last: int,
                              count: nat, k: nat)
    requires 0 < size <= |hist| && w <= size && k < |events|
  {
    var added := Recordings(|hist|, w, size, events[..k], consumed, last);
    events[k].Queued? ==>
      Refusal(count + |added|, LastOf(last, added), |Play(hist, w, size, events[..k])| + events[k].block.offset,
              consumed) == None
  }

  /** The queue takes all filters among the events. */
  ghost predicate Unrefused(hist: seq<byte>, w: nat, size: nat, events: seq<Event>, consumed: nat, last: int,
                            count: nat)
    requires 0 < size <= |hist| && w <= size
  {
    forall k: nat :: k < |events| ==> UnrefusedAt(hist, w, size, events, consumed, last, count, k)
  }

  /** Only the events up to the filter matter. */
  lemma UnrefusedSame(hist: seq<byte>, w: nat, size: nat, a: seq<Event>, b: seq<Event>, consumed: nat, last: int,
                      count: nat, k: nat)
    requires 0 < size <= |hist| && w <= size && k < |a| && k < |b| && a[..k + 1] == b[..k + 1]
    ensures UnrefusedAt(hist, w, size, a, consumed, last, count, k)
      <==> UnrefusedAt(hist, w, size, b, consumed, last, count, k)
  {
    hide Play;
    hide Recordings;
    hide Refusal;
    hide LastOf;
    assert a[..k] == a[..k + 1][..k] == b[..k] && a[k] == a[..k + 1][k] == b[k];
  }

  lemma UnrefusedFilled(hist: seq<byte>, w: nat, size: nat, events: seq<Event>, consumed: nat, last: int, count: nat,
                        more: seq<Event>)
    requires 0 < size <= |hist| && w <= size && Unrefused(hist, w, size, events, consumed, last, count)
    requires forall k :: 0 <= k < |more| ==> !more[k].Queued?
    ensures Unrefused(hist, w, size, events + more, consumed, last, count)
  {
    hide Play;
    hide Recordings;
    hide Refusal;
    hide LastOf;
    forall k: nat | k < |events + more| ensures UnrefusedAt(hist, w, size, events + more, consumed, last, count, k) {
      if k < |events| {
        UnrefusedSame(hist, w, size, events, events + more, consumed, last, count, k);
      }
    }
  }

  lemma UnrefusedMore(hist: seq<byte>, w: nat, size: nat, events: seq<Event>, consumed: nat, last: int, count: nat,
                      block: FilterBlock)
    requires 0 < size <= |hist| && w <= size && Unrefused(hist, w, size, events, consumed, last, count)
    requires var added := Recordings(|hist|, w, size, events, consumed, last);
      Refusal(count + |added|, LastOf(last, added), |Play(hist, w, size, events)| + block.offset, consumed) == None
    ensures Unrefused(hist, w, size, events + [Queued(block)], consumed, last, count)
  {
    hide Play;
    hide Recordings;
    hide Refusal;
    hide LastOf;
    var all := events + [Queued(block)];
    assert all[..|events|] == events && all[|events|] == Queued(block);
    assert UnrefusedAt(hist, w, size, all, consumed, last, count, |events|);
    forall k: nat | k < |events| ensures UnrefusedAt(hist, w, size, all, consumed, last, count, k) {
      UnrefusedSame(hist, w, size, events, all, consumed, last, count, k);
    }
  }

  /** Each of the events finds room in the window, and none of them ends the fill. */
  ghost predicate Roomy(hist: seq<byte>, w: nat, size: nat, events: seq<Event>)
    requires 0 < size <= |hist| && w <= size
  {
    forall k: nat :: k < |events| ==> !events[k].Stop? && w + |Play(hist, w, size, events[..k])| - |hist| < size
  }

  lemma RoomyAt(hist: seq<byte>, w: nat, size: nat, events: seq<Event>, k: nat)
    requires 0 < size <= |hist| && w <= size && k < |events| && Roomy(hist, w, size, events)
    ensures !events[k].Stop? && w + |Play(hist, w, size, events[..k])| - |hist| < size
  {}

  /** Events that find room and are not refused are all done, and the fill goes on after them. */
  lemma {:induction false} DecodingTaken(hist: seq<byte>, w: nat, size: nat, events: seq<Event>, rest: seq<Event>,
                                         consumed: nat, last: int, count: nat)
    requires 0 < size <= |hist| && w <= size
    requires Roomy(hist, w, size, events) && Unrefused(hist, w, size, events, consumed, last, count)
    ensures var h, added := Play(hist, w, size, events), Recordings(|hist|, w, size, events, consumed, last);
      DecodingOf(|hist|, w, size, events + rest, consumed, last, count)
        == Later(DecodingOf(|h|, w + |h| - |hist|, size, rest, consumed, LastOf(last, added), count + |added|),
                 |events|)
    decreases |events|
  {
    hide Play;
    hide Recordings;
    hide DecodingOf;
    hide LastOf;
    hide Refusal;
    hide Recorded;
    hide Mod;
    if events == [] {
      assert events + rest == rest;
      PlayNone(hist, w, size);
      RecordingsNone(|hist|, w, size, consumed, last);
    } else {
      var b, e := events[..|events| - 1], events[|events| - 1];
      assert events == b + [e] && events + rest == b + ([e] + rest) && ([e] + rest)[1..] == rest;
      TakenBut(hist, w, size, events, consumed, last, count);
      DecodingTaken(hist, w, size, b, [e] + rest, consumed, last, count);
      OneTaken(hist, w, size, b, e, rest, consumed, last, count);
    }
  }

  lemma TakenBut(hist: seq<byte>, w: nat, size: nat, events: seq<Event>, consumed: nat, last: int, count: nat)
    requires 0 < size <= |hist| && w <= size && events != []
    requires Roomy(hist, w, size, events) && Unrefused(hist, w, size, events, consumed, last, count)
    ensures var b := events[..|events| - 1];
      && Roomy(hist, w, size, b) && Unrefused(hist, w, size, b, consumed, last, count)
      && !events[|events| - 1].Stop? && w + |Play(hist, w, size, b)| - |hist| < size
      && var added := Recordings(|hist|, w, size, b, consumed, last);
      events[|events| - 1].Queued? ==>
        Refusal(count + |added|, LastOf(last, added), |Play(hist, w, size, b)| + events[|events| - 1].block.offset,
                consumed) == None
  {
    hide Play;
    hide Recordings;
    hide Refusal;
    hide LastOf;
    var n := |events| - 1;
    var b := events[..n];
    forall k: nat | k < n
      ensures UnrefusedAt(hist, w, size, b, consumed, last, count, k)
      ensures !b[k].Stop? && w + |Play(hist, w, size, b[..k])| - |hist| < size
    {
      assert b[..k] == events[..k];
      assert UnrefusedAt(hist, w, size, events, consumed, last, count, k);
      RoomyAt(hist, w, size, events, k);
    }
    assert UnrefusedAt(hist, w, size, events, consumed, last, count, n);
    RoomyAt(hist, w, size, events, n);
  }

  lemma OneTaken(hist: seq<byte>, w: nat, size: nat, b: seq<Event>, e: Event, rest: seq<Event>, consumed: nat,
                 last: int, count: nat)
    requires 0 < size <= |hist| && w <= size && !e.Stop? && w + |Play(hist, w, size, b)| - |hist| < size
    requires var added := Recordings(|hist|, w, size, b, consumed, last);
      e.Queued? ==>
        Refusal(count + |added|, LastOf(last, added), |Play(hist, w, size, b)| + e.block.offset, consumed) == None
    ensures var h, added := Play(hist, w, size, b), Recordings(|hist|, w, size, b, consumed, last);
      var h', added' := Play(hist, w, size, b + [e]), Recordings(|hist|, w, size, b + [e], consumed, last);
      DecodingOf(|h|, w + |h| - |hist|, size, [e] + rest, consumed, LastOf(last, added), count + |added|)
        == Later(DecodingOf(|h'|, w + |h'| - |hist|, size, rest, consumed, LastOf(last, added'), count + |added'|), 1)
  {
    hide Recordings;
    hide DecodingOf;
    hide LastOf;
    hide Refusal;
    hide Recorded;
    hide Mod;
    hide Play;
    var h, added := Play(hist, w, size, b), Recordings(|hist|, w, size, b, consumed, last);
    var w', lastNow := w + |h| - |hist|, LastOf(last, added);
    var one := Recordings(|h|, w', size, [e], consumed, lastNow);
    PlayMore(hist, w, size, b, e);
    RecordingsMore(hist, w, size, b, e, consumed, last);
    RecordingsOne(|h|, w', size, e, consumed, lastNow);
    LastOfMore(last, added, one);
    LastOfOne(lastNow, one);
    WritesPlayed(h, w', size, e);
    assert ([e] + rest)[1..] == rest;
    DecodingStep(|h|, w', size, [e] + rest, consumed, lastNow, count + |added|, None, LastOf(lastNow, one));
  }

  lemma WritesPlayed(hist: seq<byte>, w: nat, size: nat, e: Event)
    requires 0 < size <= |hist| && w < size
    ensures |Play(hist, w, size, [e])| == |hist| + Writes(e, w, size)
  {
    hide Mod;
    hide Distance;
    assert [e][1..] == [];
  }

  // What a reader makes of it.

  /** The history, the place in the window, what the decoder has still to do, the error it is to report, and the
      queue. */
  datatype Source = Source(hist: seq<byte>, w: nat, script: seq<Event>, err: Option<Error>, queue: seq<Interval>)

  ghost predicate Readable(s: Source, size: nat, origin: nat) {
    0 < size <= |s.hist| && s.w <= size && origin <= |s.hist|
    && forall k :: 0 <= k < |s.queue| ==> s.queue[k].length >= 0
  }

  lemma {:induction false} RecordedLengths(at: nat, w: nat, size: nat, events: seq<Event>, consumed: nat, last: int)
    requires 0 < size && w <= size
    ensures forall k :: 0 <= k < |Recordings(at, w, size, events, consumed, last)| ==>
      Recordings(at, w, size, events, consumed, last)[k].length >= 0
    decreases |events|
  {
    hide Recorded;
    hide Mod;
    if events != [] {
      match events[0]
      case Literal(_) => if w < size { RecordedLengths(at + 1, w + 1, size, events[1..], consumed, last); }
      case Copy(length, _) =>
        var n := Min(Mod(length, size), size - w);
        RecordedLengths(at + n, w + n, size, events[1..], consumed, last);
      case Queued(block) =>
        RecordedLengths(at, w, size, events[1..], consumed, Recorded(at + block.offset, consumed, last, size));
      case Stop(_) => RecordedLengths(at, w, size, events[1..], consumed, last);
    }
  }

  /** A fill when all that is there was read: an error kept from before, or the decoder's events. An error after bytes
      is kept. */
  ghost function FillOf(s: Source, size: nat, origin: nat): (r: (Option<Error>, Source))
    requires Readable(s, size, origin)
    ensures Readable(r.1, size, origin) && s.hist <= r.1.hist
    ensures r.0 == None ==> |r.1.script| < |s.script|
  {
    if s.err != None then (s.err, s.(err := None))
    else
      var w0 := if s.w == size then 0 else s.w;
      var consumed, last := |s.hist| - origin, LastOf(origin, s.queue);
      var d := DecodingOf(|s.hist|, w0, size, s.script, consumed, last, |s.queue|);
      var hist := Play(s.hist, w0, size, s.script[..d.taken]);
      RecordedLengths(|s.hist|, w0, size, AcceptedOf(s.script, d), consumed, last);
      var queue := s.queue + Recordings(|s.hist|, w0, size, AcceptedOf(s.script, d), consumed, last);
      var s' := Source(hist, w0 + |hist| - |s.hist|, s.script[d.taken..], None, queue);
      if |hist| == |s.hist| then
        NothingTaken(s, w0, size, d);
        (d.e, s')
      else
        NothingTaken(s, w0, size, d);
        (None, s'.(err := d.e))
  }

  /** A fill that takes no event writes nothing. */
  lemma NothingTaken(s: Source, w0: nat, size: nat, d: Decoding)
    requires 0 < size <= |s.hist| && w0 < size && d.taken <= |s.script|
    ensures d.taken == 0 ==> Play(s.hist, w0, size, s.script[..d.taken]) == s.hist
    ensures d.taken > 0 ==> |s.script[d.taken..]| < |s.script|
  {}

  /** Fill until the stream reaches a position, or there is an error. */
  ghost function Supply(s: Source, size: nat, origin: nat, end: int): (r: (Option<Error>, Source))
    requires Readable(s, size, origin)
    ensures Readable(r.1, size, origin) && s.hist <= r.1.hist && (r.0 == None ==> end <= |r.1.hist|)
    decreases |s.script|
  {
    if end <= |s.hist| then (None, s)
    else
      var (e, s') := FillOf(s, size, origin);
      if e != None then (e, s') else Supply(s', size, origin, end)
  }

  lemma FillKept(s: Source, size: nat, origin: nat)
    requires Readable(s, size, origin) && s.err != None
    ensures FillOf(s, size, origin) == (s.err, s.(err := None))
  {}

  lemma FillRan(s: Source, size: nat, origin: nat, d: Decoding, hist: seq<byte>, added: seq<Interval>)
    requires Readable(s, size, origin) && s.err == None
    requires var w0, consumed, last := if s.w == size then 0 else s.w, |s.hist| - origin, LastOf(origin, s.queue);
      && d == DecodingOf(|s.hist|, w0, size, s.script, consumed, last, |s.queue|)
      && hist == Play(s.hist, w0, size, s.script[..d.taken])
      && added == Recordings(|s.hist|, w0, size, AcceptedOf(s.script, d), consumed, last)
    ensures var w0 := if s.w == size then 0 else s.w;
      |s.hist| <= |hist| && w0 + |hist| - |s.hist| >= 0 &&
      var s' := Source(hist, w0 + |hist| - |s.hist|, s.script[d.taken..], None, s.queue + added);
      FillOf(s, size, origin) == if |hist| == |s.hist| then (d.e, s') else (None, s'.(err := d.e))
  {
    hide DecodingOf;
    hide Recordings;
    hide AcceptedOf;
    hide Play;
    hide LastOf;
  }

  lemma SupplyStep(s: Source, size: nat, origin: nat, end: int)
    requires Readable(s, size, origin)
    ensures end <= |s.hist| ==> Supply(s, size, origin, end) == (None, s)
    ensures var (e, s') := FillOf(s, size, origin);
      end > |s.hist| ==> Supply(s, size, origin, end) == if e != None then (e, s') else Supply(s', size, origin, end)
  {
    hide FillOf;
  }

  /** Why a chain of filters fails. */
  function ChainFault(blocks: seq<Interval>, b: seq<byte>, tot: nat): Option<Error> {
    if blocks == [] then None
    else if blocks[0].length != |b| then Some(InvalidFilter)
    else
      var out := blocks[0].filter(b, tot);
      if out == None then Some(FilterFailed) else ChainFault(blocks[1..], out.value, tot)
  }

  lemma {:induction false} ChainFaults(blocks: seq<Interval>, b: seq<byte>, tot: nat)
    ensures ChainFault(blocks, b, tot) == None <==> Chain(blocks, b, tot).Some?
  {
    if blocks != [] && blocks[0].length == |b| && blocks[0].filter(b, tot).Some? {
      ChainFaults(blocks[1..], blocks[0].filter(b, tot).value, tot);
    }
  }

  lemma {:induction false} FaultSplit(a: seq<Interval>, rest: seq<Interval>, b: seq<byte>, tot: nat)
    requires Chain(a, b, tot).Some?
    ensures ChainFault(a + rest, b, tot) == ChainFault(rest, Chain(a, b, tot).value, tot)
  {
    if a == [] {
      assert a + rest == rest;
    } else {
      FaultSplit(a[1..], rest, a[0].filter(b, tot).value, tot);
      assert (a + rest)[1..] == a[1..] + rest;
    }
  }

  /** The next piece of output, the filters applied to it, and how far the stream was read after it; or why there is
      none. */
  datatype Decoded = Output(out: seq<byte>, g: seq<Interval>, s: Source, origin: nat) | Halted(e: Error)

  /** The block that starts at the read position, filtered. */
  ghost function BlockOf(s: Source, size: nat, origin: nat, tot: nat): Decoded
    requires Readable(s, size, origin) && s.queue != []
  {
    var end := origin + s.queue[0].length;
    var (e, s') := Supply(s, size, origin, end);
    if e != None then Halted(e.value)
    else
      var g := Leading(s'.queue, origin);
      var fault := ChainFault(g, s'.hist[origin..end], tot);
      if fault != None then Halted(fault.value)
      else
        ChainFaults(g, s'.hist[origin..end], tot);
        Output(Chain(g, s'.hist[origin..end], tot).value, g, s'.(queue := s'.queue[|g|..]), end)
  }

  /** What is output of what is there: the bytes before the next block, or the next block filtered. */
  ghost function NextOf(s: Source, size: nat, origin: nat, tot: nat): Decoded
    requires Readable(s, size, origin)
  {
    if s.queue == [] then Output(s.hist[origin..], [], s, |s.hist|)
    else
      var start := s.queue[0].start;
      if start < origin then Halted(InvalidFilter)
      else if start > origin then Output(s.hist[origin..Min(start, |s.hist|)], [], s, Min(start, |s.hist|))
      else BlockOf(s, size, origin, tot)
  }

  /** What is output next, after a fill when all that was there was read. */
  ghost function DecodeOf(s: Source, size: nat, origin: nat, tot: nat): Decoded
    requires Readable(s, size, origin)
  {
    var (e, s') := if origin == |s.hist| then FillOf(s, size, origin) else (None, s);
    if e != None then Halted(e.value) else NextOf(s', size, origin, tot)
  }

  /** The filter whose turn it is in a chain decides why the chain fails. */
  lemma MidwayFault(all: seq<Interval>, g: seq<Interval>, rest: seq<Interval>, position: int,
                    input: seq<byte>, b: seq<byte>, tot: nat)
    requires Midway(all, g, rest, position, input, b, tot) && rest != [] && rest[0].start == position
    requires rest[0].length != |b| || rest[0].filter(b, tot) == None
    ensures ChainFault(Leading(all, position), input, tot)
      == Some(if rest[0].length != |b| then InvalidFilter else FilterFailed)
  {
    FaultSplit(g, Leading(rest, position), input, tot);
  }

  /** What came of making more output is what was to come of it. */
  ghost predicate Follows(d: Decoded, e: Option<Error>, out: seq<byte>, s: Source, origin: nat,
                          before: seq<seq<Interval>>, groups: seq<seq<Interval>>)
  {
    match d
    case Halted(f) => e == Some(f)
    case Output(out', g, s', origin') =>
      e == None && out == out' && s == s' && origin == origin' && groups == before + if g == [] then [] else [g]
  }

  // A filter that is queued while part of a block has been taken.

  const WINDOW := MIN_WINDOW

  function Unchanged(): Filter { (b: seq<byte>, tot: nat) => Some(b) }

  /** Copies of a few bytes, with room for them. */
  lemma CopyPlayed(hist: seq<byte>, w: nat, n: nat)
    requires WINDOW <= |hist| && w + n <= WINDOW && n < WINDOW
    ensures |Play(hist, w, WINDOW, [Copy(n, 1)])| == |hist| + n && (w < WINDOW ==> Writes(Copy(n, 1), w, WINDOW) == n)
  {
    ModBelow(n, WINDOW);
    assert [Copy(n, 1)][1..] == [];
  }

  lemma InOrder(at: nat, a: nat, b: nat)
    requires a <= b
    ensures Refusal(0, at, at + a, 0) == None && Refusal(1, at + a, at + b, 0) == None
  {}

  /** A filter at the read position, and ten bytes that fill the window. */
  lemma FilterThenFull(s: Source, a: FilterBlock, more: seq<Event>, origin: nat)
    requires Readable(s, WINDOW, origin) && s.err == None && s.queue == [] && origin == |s.hist| && s.w == WINDOW - 10
    requires s.script == [Queued(a), Copy(10, 1)] + more && 0 <= a.offset < WINDOW
    ensures var (e, s') := FillOf(s, WINDOW, origin);
      && e == None && s'.err == None && s'.w == WINDOW && |s'.hist| == |s.hist| + 10 && s'.script == more
      && s'.queue == [Interval(origin + a.offset, Mod(a.length, WINDOW), a.filter)]
  {
    hide Play;
    hide Recordings;
    hide Recorded;
    hide Refusal;
    hide Mod;
    hide FillOf;
    var t, tail := s.script, [Copy(10, 1)] + more;
    assert t[1..] == tail && tail[1..] == more && t[..2] == [Queued(a), Copy(10, 1)] && t[2..] == more;
    assert [Queued(a), Copy(10, 1)][1..] == [Copy(10, 1)];
    RecordedWhereAsked(origin + a.offset, 0, origin, WINDOW);
    InOrder(origin, a.offset, a.offset);
    CopyPlayed(s.hist, s.w, 10);
    FirstQueued(s.hist, s.w, t[..2], 0, origin);
    NoneQueued(|s.hist|, s.w, 10, origin + a.offset);
    var d := DecodingOf(origin, s.w, WINDOW, t, 0, origin, 0);
    DecodingStep(origin, s.w, WINDOW, t, 0, origin, 0, None, origin + a.offset);
    DecodingStep(origin, s.w, WINDOW, tail, 0, origin + a.offset, 1, None, origin + a.offset);
    assert d == Decoding(2, false, None);
    FillRan(s, WINDOW, origin, d, Play(s.hist, s.w, WINDOW, t[..2]),
            Recordings(origin, s.w, WINDOW, t[..2], 0, origin));
  }

  lemma NoneQueued(at: nat, w: nat, n: nat, last: int)
    requires w + n <= WINDOW && n < WINDOW
    ensures Recordings(at, w, WINDOW, [Copy(n, 1)], 0, last) == []
  {
    assert [Copy(n, 1)][1..] == [];
  }

  /** Ten bytes into a block, from the start of the window, a filter and the end of the file. */
  lemma FilterThenEnd(s: Source, b: FilterBlock, n: nat, origin: nat)
    requires Readable(s, WINDOW, origin) && s.err == None && s.w == WINDOW && 0 < n < WINDOW
    requires s.script == [Queued(b), Copy(n, 1), Stop(Some(EndOfFile))]
    requires Refusal(|s.queue|, LastOf(origin, s.queue), |s.hist| + b.offset, |s.hist| - origin) == None
    ensures var (e, s') := FillOf(s, WINDOW, origin);
      var start := Recorded(|s.hist| + b.offset, |s.hist| - origin, LastOf(origin, s.queue), WINDOW);
      && e == None && s'.err == Some(EndOfFile) && |s'.hist| == |s.hist| + n && s'.script == []
      && s'.queue == s.queue + [Interval(start, Mod(b.length, WINDOW), b.filter)]
  {
    hide Play;
    hide Recordings;
    hide Recorded;
    hide Refusal;
    hide Mod;
    hide FillOf;
    var t, at, consumed, last := s.script, |s.hist|, |s.hist| - origin, LastOf(origin, s.queue);
    var start := Recorded(at + b.offset, consumed, last, WINDOW);
    var tail := [Copy(n, 1), Stop(Some(EndOfFile))];
    assert t[1..] == tail && tail[1..] == [Stop(Some(EndOfFile))] && t[..3] == t && t[3..] == [];
    CopyPlayed(s.hist, 0, n);
    StopPlayed(s.hist, n, consumed, start);
    FirstQueued(s.hist, 0, t, consumed, last);
    var d := DecodingOf(at, 0, WINDOW, t, consumed, last, |s.queue|);
    DecodingStep(at, 0, WINDOW, t, consumed, last, |s.queue|, None, start);
    DecodingStep(at, 0, WINDOW, tail, consumed, start, |s.queue| + 1, None, start);
    DecodingStep(at + n, n, WINDOW, tail[1..], consumed, start, |s.queue| + 1, Some(EndOfFile), start);
    assert d == Decoding(3, false, Some(EndOfFile));
    FillRan(s, WINDOW, origin, d, Play(s.hist, 0, WINDOW, t), Recordings(at, 0, WINDOW, t, consumed, last));
  }

  lemma StopPlayed(hist: seq<byte>, n: nat, consumed: nat, last: int)
    requires WINDOW <= |hist| && n < WINDOW
    ensures |Play(hist, 0, WINDOW, [Copy(n, 1), Stop(Some(EndOfFile))])| == |hist| + n
    ensures Recordings(|hist|, 0, WINDOW, [Copy(n, 1), Stop(Some(EndOfFile))], consumed, last) == []
  {
    hide Mod;
    hide Distance;
    hide Repeat;
    ModBelow(n, WINDOW);
    var tail, h := [Copy(n, 1), Stop(Some(EndOfFile))], Repeat(hist, Distance(1, WINDOW), n);
    assert tail[1..] == [Stop(Some(EndOfFile))] && tail[1..][1..] == [];
    assert Play(h, n, WINDOW, tail[1..]) == h && Play(hist, 0, WINDOW, tail) == Play(h, n, WINDOW, tail[1..]);
    assert Recordings(|hist| + n, n, WINDOW, tail[1..], consumed, last) == [];
  }

  lemma FirstQueued(hist: seq<byte>, w: nat, events: seq<Event>, consumed: nat, last: int)
    requires WINDOW <= |hist| && w < WINDOW && events != [] && events[0].Queued?
    ensures Play(hist, w, WINDOW, events) == Play(hist, w, WINDOW, events[1..])
    ensures var block := events[0].block;
      var start := Recorded(|hist| + block.offset, consumed, last, WINDOW);
      Recordings(|hist|, w, WINDOW, events, consumed, last)
        == [Interval(start, Mod(block.length, WINDOW), block.filter)]
          + Recordings(|hist|, w, WINDOW, events[1..], consumed, start)
  {
    hide Mod;
    hide Recorded;
  }

  /** Ten bytes before the end of its window, a reader is asked for a filter at the read position, over twenty bytes.
      The window is full after ten of them. Then another filter is asked for 100 bytes past the block's start, and the
      file goes on beyond it: that filter is recorded 90 bytes past the block's start. */
  lemma MisplacedExample(hist: seq<byte>)
    requires |hist| == WINDOW
    ensures var a, b := FilterBlock(20, 0, Unchanged()), FilterBlock(5, 90, Unchanged());
      var script := [Queued(a), Copy(10, 1)] + [Queued(b), Copy(120, 1), Stop(Some(EndOfFile))];
      var d := DecodeOf(Source(hist, WINDOW - 10, script, None, []), WINDOW, |hist|, 0);
      && d.Output? && |d.out| == 20 && |d.s.hist| == |hist| + 130
      && d.s.queue == [Interval(|hist| + 90, 5, Unchanged())]
  {
    hide Play;
    hide FillOf;
    hide DecodingOf;
    hide Recordings;
    var a, b := FilterBlock(20, 0, Unchanged()), FilterBlock(5, 90, Unchanged());
    var more := [Queued(b), Copy(120, 1), Stop(Some(EndOfFile))];
    var s := Source(hist, WINDOW - 10, [Queued(a), Copy(10, 1)] + more, None, []);
    FilterThenFull(s, a, more, |hist|);
    var s1 := FillOf(s, WINDOW, |hist|).1;
    assert s1.queue == [Interval(|hist|, 20, Unchanged())];
    FilterThenEnd(s1, b, 120, |hist|);
    var s2 := FillOf(s1, WINDOW, |hist|).1;
    var i, j := Interval(|hist|, 20, Unchanged()), Interval(|hist| + 90, 5, Unchanged());
    assert s2.queue == [i, j] && s2.queue[1..] == [j];
    assert Supply(s1, WINDOW, |hist|, |hist| + 20) == (None, s2);
    var g := Leading(s2.queue, |hist|);
    assert Leading([j], |hist|) == [] && g == [i] && g[1..] == [];
    var input := s2.hist[|hist|..|hist| + 20];
    assert ChainFault(g, input, 0) == None && Chain(g, input, 0) == Some(input);
    assert BlockOf(s1, WINDOW, |hist|, 0) == Output(input, g, s2.(queue := [j]), |hist| + 20);
  }

  /** With another block queued five bytes in, a filter asked for ten bytes in is refused, although it starts after
      both. */
  lemma RefusedExample(hist: seq<byte>, more: seq<Event>)
    requires |hist| == WINDOW
    ensures var a, b, c :=
      FilterBlock(20, 0, Unchanged()), FilterBlock(1, 5, Unchanged()), FilterBlock(5, 0, Unchanged());
      var script := [Queued(a)] + ([Queued(b), Copy(10, 1)] + ([Queued(c)] + more));
      DecodeOf(Source(hist, WINDOW - 10, script, None, []), WINDOW, |hist|, 0) == Halted(InvalidFilter)
  {
    hide Play;
    hide FillOf;
    hide DecodingOf;
    hide Recordings;
    var a, b, c :=
      FilterBlock(20, 0, Unchanged()), FilterBlock(1, 5, Unchanged()), FilterBlock(5, 0, Unchanged());
    var left := [Queued(c)] + more;
    var s := Source(hist, WINDOW - 10, [Queued(a)] + ([Queued(b), Copy(10, 1)] + left), None, []);
    TwoThenFull(s, a, b, left);
    RefusedAtOnce(FillOf(s, WINDOW, |hist|).1, c, more, |hist|);
  }

  /** Two filters at or after the read position, and ten bytes that fill the window. */
  lemma TwoThenFull(s: Source, a: FilterBlock, b: FilterBlock, more: seq<Event>)
    requires Readable(s, WINDOW, |s.hist|) && s.err == None && s.queue == [] && s.w == WINDOW - 10
    requires s.script == [Queued(a)] + ([Queued(b), Copy(10, 1)] + more) && 0 <= a.offset <= b.offset < WINDOW
    ensures var (e, s') := FillOf(s, WINDOW, |s.hist|);
      && e == None && s'.err == None && s'.w == WINDOW && |s'.hist| == |s.hist| + 10 && s'.script == more
      && s'.queue
        == [Interval(|s.hist| + a.offset, Mod(a.length, WINDOW), a.filter),
            Interval(|s.hist| + b.offset, Mod(b.length, WINDOW), b.filter)]
  {
    hide Play;
    hide Recordings;
    hide Recorded;
    hide Refusal;
    hide Mod;
    hide FillOf;
    var at, done := |s.hist|, [Queued(a), Queued(b), Copy(10, 1)];
    assert s.script[..3] == done && s.script[3..] == more;
    TwoDecoded(at, s.w, a, b, more);
    TwoRecorded(s.hist, s.w, a, b);
    var d := DecodingOf(at, s.w, WINDOW, s.script, 0, at, 0);
    FillRan(s, WINDOW, at, d, Play(s.hist, s.w, WINDOW, done), Recordings(at, s.w, WINDOW, done, 0, at));
  }

  lemma TwoDecoded(at: nat, w: nat, a: FilterBlock, b: FilterBlock, more: seq<Event>)
    requires w == WINDOW - 10 && 0 <= a.offset <= b.offset < WINDOW
    ensures DecodingOf(at, w, WINDOW, [Queued(a)] + ([Queued(b), Copy(10, 1)] + more), 0, at, 0)
      == Decoding(3, false, None)
  {
    hide Recorded;
    hide Refusal;
    hide DecodingOf;
    hide Writes;
    var t1, t2 := [Queued(b), Copy(10, 1)] + more, [Copy(10, 1)] + more;
    var t := [Queued(a)] + t1;
    assert t[1..] == t1 && t1[1..] == t2 && t2[1..] == more;
    RecordedWhereAsked(at + a.offset, 0, at, WINDOW);
    RecordedWhereAsked(at + b.offset, 0, at + a.offset, WINDOW);
    InOrder(at, a.offset, b.offset);
    CopyWrites(w, 10);
    QueuedWrites(a, w);
    QueuedWrites(b, w);
    FullDecoding(at + 10, more, at + b.offset, 2);
    DecodingStep(at, w, WINDOW, t, 0, at, 0, None, at + a.offset);
    DecodingStep(at, w, WINDOW, t1, 0, at + a.offset, 1, None, at + b.offset);
    DecodingStep(at, w, WINDOW, t2, 0, at + b.offset, 2, None, at + b.offset);
  }

  lemma CopyWrites(w: nat, n: nat)
    requires w < WINDOW && w + n <= WINDOW && n < WINDOW
    ensures Writes(Copy(n, 1), w, WINDOW) == n
  {
    ModBelow(n, WINDOW);
  }

  lemma QueuedWrites(block: FilterBlock, w: nat)
    requires w < WINDOW
    ensures Writes(Queued(block), w, WINDOW) == 0
  {}

  lemma FullDecoding(at: nat, script: seq<Event>, last: int, count: nat)
    ensures DecodingOf(at, WINDOW, WINDOW, script, 0, last, count) == Decoding(0, false, None)
  {}

  lemma TwoRecorded(hist: seq<byte>, w: nat, a: FilterBlock, b: FilterBlock)
    requires WINDOW <= |hist| && w == WINDOW - 10 && 0 <= a.offset <= b.offset < WINDOW
    ensures var done := [Queued(a), Queued(b), Copy(10, 1)];
      && |Play(hist, w, WINDOW, done)| == |hist| + 10
      && Recordings(|hist|, w, WINDOW, done, 0, |hist|)
        == [Interval(|hist| + a.offset, Mod(a.length, WINDOW), a.filter),
            Interval(|hist| + b.offset, Mod(b.length, WINDOW), b.filter)]
  {
    hide Play;
    hide Recordings;
    hide Recorded;
    hide Mod;
    var at, done := |hist|, [Queued(a), Queued(b), Copy(10, 1)];
    assert done[1..] == [Queued(b), Copy(10, 1)] && done[1..][1..] == [Copy(10, 1)];
    RecordedWhereAsked(at + a.offset, 0, at, WINDOW);
    RecordedWhereAsked(at + b.offset, 0, at + a.offset, WINDOW);
    CopyPlayed(hist, w, 10);
    FirstQueued(hist, w, done, 0, at);
    FirstQueued(hist, w, done[1..], 0, at + a.offset);
    NoneQueued(at, w, 10, at + b.offset);
  }

  /** A fill that begins with a filter that is refused gives the refusal. */
  lemma RefusedAtOnce(s: Source, block: FilterBlock, more: seq<Event>, origin: nat)
    requires Readable(s, WINDOW, origin) && s.err == None && s.script == [Queued(block)] + more
    requires Refusal(|s.queue|, LastOf(origin, s.queue), |s.hist| + block.offset, |s.hist| - origin) != None
    ensures FillOf(s, WINDOW, origin).0 == Refusal(|s.queue|, LastOf(origin, s.queue), |s.hist| + block.offset,
                                                   |s.hist| - origin)
  {
    hide Refusal;
    hide Recordings;
    var one := s.script[..1];
    assert one == [Queued(block)] && one[1..] == [];
    assert Play(s.hist, if s.w == WINDOW then 0 else s.w, WINDOW, one) == s.hist;
  }
}

/** All that a reader outputs, fill after fill and block after block, until it has no more or fails. */
module Outputs {
  import opened Machine
  import opened LzWindow
  import opened FilterQueue
  import opened Decodings

  // The history, however the window cuts it into fills.

  /** The place of the next byte: the start of the window after its end. */
  function Wrapped(w: nat, size: nat): nat { if w == size then 0 else w }

  /** The history after events, the window being begun again whenever it is full. */
  function PlayOn(hist: seq<byte>, w: nat, size: nat, events: seq<Event>): (r: seq<byte>)
    requires 0 < size <= |hist| && w <= size
    ensures hist <= r
    decreases |events|
  {
    if events == [] then hist
    else
      var w0 := Wrapped(w, size);
      match events[0]
      case Literal(c) => PlayOn(hist + [c], w0 + 1, size, events[1..])
      case Copy(length, offset) =>
        var n := Min(Mod(length, size), size - w0);
        var h := Repeat(hist, Distance(offset, size), n);
        assert hist <= h;
        PlayOn(h, w0 + n, size, events[1..])
      case _ => PlayOn(hist, w0, size, events[1..])
  }

  /** Every copy is shorter than the window and ends no later than the window does. */
  predicate WholeOn(w: nat, size: nat, events: seq<Event>)
    requires 0 < size && w <= size
    decreases |events|
  {
    if events == [] then true
    else
      var w0 := Wrapped(w, size);
      match events[0]
      case Literal(_) => WholeOn(w0 + 1, size, events[1..])
      case Copy(length, _) =>
        0 <= length < size && w0 + length <= size && WholeOn(w0 + length, size, events[1..])
      case _ => WholeOn(w0, size, events[1..])
  }

  lemma NoneOn(hist: seq<byte>, w: nat, size: nat)
    requires 0 < size <= |hist| && w <= size
    ensures PlayOn(hist, w, size, []) == hist == Meant(hist, size, []) && Total([]) == 0 && WholeOn(w, size, [])
  {}

  lemma CopyFirstOn(hist: seq<byte>, w: nat, size: nat, events: seq<Event>)
    requires 0 < size <= |hist| && w <= size && events != [] && events[0].Copy? && events[0].length >= 0
    ensures var w0, length, d := Wrapped(w, size), events[0].length, Distance(events[0].offset, size);
      var n := Min(Mod(length, size), size - w0);
      && PlayOn(hist, w, size, events) == PlayOn(Repeat(hist, d, n), w0 + n, size, events[1..])
      && Meant(hist, size, events) == Meant(Repeat(hist, d, length), size, events[1..])
      && Total(events) == length + Total(events[1..])
      && (WholeOn(w, size, events) <==> n == length && WholeOn(w0 + n, size, events[1..])) && n <= length
  {
    hide Distance;
    hide Repeat;
    hide Mod;
    ModBelow(events[0].length, size);
    RepeatNone(hist, Distance(events[0].offset, size));
  }

  lemma OtherFirstOn(hist: seq<byte>, w: nat, size: nat, events: seq<Event>)
    requires 0 < size <= |hist| && w <= size && events != [] && !events[0].Copy?
    ensures var h, n := if events[0].Literal? then hist + [events[0].c] else hist, if events[0].Literal? then 1 else 0;
      var w' := Wrapped(w, size) + n;
      && PlayOn(hist, w, size, events) == PlayOn(h, w', size, events[1..])
      && Meant(hist, size, events) == Meant(h, size, events[1..]) && Total(events) == n + Total(events[1..])
      && (WholeOn(w, size, events) <==> WholeOn(w', size, events[1..]))
  {}

  lemma {:induction false} PlayOnLength(hist: seq<byte>, w: nat, size: nat, events: seq<Event>)
    requires 0 < size <= |hist| && w <= size
      && forall k :: 0 <= k < |events| && events[k].Copy? ==> events[k].length >= 0
    ensures |PlayOn(hist, w, size, events)| <= |hist| + Total(events)
    ensures |PlayOn(hist, w, size, events)| == |hist| + Total(events) ==> WholeOn(w, size, events)
    ensures WholeOn(w, size, events) ==> PlayOn(hist, w, size, events) == Meant(hist, size, events)
    decreases |events|
  {
    hide PlayOn;
    hide Meant;
    hide WholeOn;
    hide Total;
    var w0 := Wrapped(w, size);
    if events == [] {
      NoneOn(hist, w, size);
    } else if events[0].Copy? {
      var d, n := Distance(events[0].offset, size), Min(Mod(events[0].length, size), size - w0);
      CopyFirstOn(hist, w, size, events);
      PlayOnLength(Repeat(hist, d, n), w0 + n, size, events[1..]);
    } else {
      OtherFirstOn(hist, w, size, events);
      if events[0].Literal? {
        PlayOnLength(hist + [events[0].c], w0 + 1, size, events[1..]);
      } else {
        PlayOnLength(hist, w0, size, events[1..]);
      }
    }
  }

  /** Over all fills, the history is what the decoder means exactly when no copy crosses the window's end or is as long
      as the window. */
  lemma AllCopiesWhole(hist: seq<byte>, w: nat, size: nat, events: seq<Event>)
    requires 0 < size <= |hist| && w <= size
      && forall k :: 0 <= k < |events| && events[k].Copy? ==> events[k].length >= 0
    ensures PlayOn(hist, w, size, events) == Meant(hist, size, events) <==> WholeOn(w, size, events)
  {
    hide PlayOn;
    hide Meant;
    PlayOnLength(hist, w, size, events);
  }

  // Fills.

  /** A full window is begun again. */
  lemma PlayOnWrapped(hist: seq<byte>, size: nat, events: seq<Event>)
    requires 0 < size <= |hist|
    ensures PlayOn(hist, size, size, events) == PlayOn(hist, 0, size, events)
  {}

  /** One event that finds room, and then the others. */
  lemma PlayOnFirst(hist: seq<byte>, w: nat, size: nat, events: seq<Event>)
    requires 0 < size <= |hist| && w < size && events != []
    ensures var h := Play(hist, w, size, [events[0]]);
      PlayOn(hist, w, size, events) == PlayOn(h, w + |h| - |hist|, size, events[1..])
  {
    hide Mod;
    hide Distance;
    hide Repeat;
    assert [events[0]][1..] == [];
  }

  /** What a fill takes, and what is left to the fills after it. */
  lemma {:induction false} TakenPlayOn(hist: seq<byte>, w: nat, size: nat, script: seq<Event>, consumed: nat, last: int,
                                       count: nat)
    requires 0 < size <= |hist| && w <= size
    ensures var d := DecodingOf(|hist|, w, size, script, consumed, last, count);
      var h := Play(hist, w, size, script[..d.taken]);
      PlayOn(hist, w, size, script) == PlayOn(h, w + |h| - |hist|, size, script[d.taken..])
    decreases |script|
  {
    hide DecodingOf;
    hide Play;
    hide PlayOn;
    hide Refusal;
    hide Recorded;
    hide Mod;
    if w == size || script == [] {
      NothingDecoded(|hist|, w, size, script, consumed, last, count);
      PlayNone(hist, w, size);
      assert script[..0] == [] && script[0..] == script;
    } else {
      var e, at := script[0], |hist|;
      var refusal := if e.Queued? then Refusal(count, last, at + e.block.offset, consumed) else None;
      var last' := if e.Queued? then Recorded(at + e.block.offset, consumed, last, size) else last;
      var h := Play(hist, w, size, [e]);
      DecodingStep(at, w, size, script, consumed, last, count, if e.Stop? then e.error else refusal, last');
      PlayOnFirst(hist, w, size, script);
      WritesPlayed(hist, w, size, e);
      assert script[..1] == [e];
      if !e.Stop? && refusal == None {
        var count' := if e.Queued? then count + 1 else count;
        TakenPlayOn(h, w + |h| - |hist|, size, script[1..], consumed, last', count');
        var d' := DecodingOf(|h|, w + |h| - |hist|, size, script[1..], consumed, last', count');
        PlayFirst(hist, w, size, script[..d'.taken + 1]);
        assert script[..d'.taken + 1][1..] == script[1..][..d'.taken];
        assert script[d'.taken + 1..] == script[1..][d'.taken..];
      }
    }
  }

  lemma NothingDecoded(at: nat, w: nat, size: nat, script: seq<Event>, consumed: nat, last: int, count: nat)
    requires 0 < size && w <= size && (w == size || script == [])
    ensures DecodingOf(at, w, size, script, consumed, last, count).taken == 0
  {}

  /** The history once the decoder has done all that it has still to do. */
  ghost function Final(s: Source, size: nat): seq<byte>
    requires 0 < size <= |s.hist| && s.w <= size
  {
    PlayOn(s.hist, s.w, size, s.script)
  }

  /** Only the last event ends the decoding, and the end of the file is kept for later only when nothing is left. */
  ghost predicate Ending(s: Source) {
    && (forall k :: 0 <= k < |s.script| - 1 ==> !s.script[k].Stop?)
    && (s.script != [] ==> s.script[|s.script| - 1].Stop?)
    && (s.err == Some(EndOfFile) ==> s.script == [])
  }

  /** The end of the file comes after all events. */
  lemma {:induction false} EndDecoded(at: nat, w: nat, size: nat, script: seq<Event>, consumed: nat, last: int,
                                      count: nat)
    requires 0 < size && w <= size && forall k :: 0 <= k < |script| - 1 ==> !script[k].Stop?
    ensures var d := DecodingOf(at, w, size, script, consumed, last, count);
      d.e == Some(EndOfFile) ==> d.taken == |script|
    decreases |script|
  {
    hide Mod;
    hide Recorded;
    if w < size && script != [] {
      var e := script[0];
      if e.Queued? {
        EndDecoded(at, w, size, script[1..], consumed, Recorded(at + e.block.offset, consumed, last, size), count + 1);
      } else if !e.Stop? {
        var n := Writes(e, w, size);
        EndDecoded(at + n, w + n, size, script[1..], consumed, last, count);
      }
    }
  }

  /** A fill brings the history on, and leaves the rest to be done. */
  lemma FillKeeps(s: Source, size: nat, origin: nat)
    requires Readable(s, size, origin) && Ending(s)
    ensures var (e, s') := FillOf(s, size, origin);
      && Ending(s') && Final(s', size) == Final(s, size)
      && (e == Some(EndOfFile) ==> s'.script == []) && (e != None ==> s'.hist == s.hist)
  {
    hide DecodingOf;
    hide Play;
    hide PlayOn;
    hide Recordings;
    hide FillOf;
    hide LastOf;
    if s.err != None {
      FillKept(s, size, origin);
    } else {
      var w0, consumed, last := Wrapped(s.w, size), |s.hist| - origin, LastOf(origin, s.queue);
      var d := DecodingOf(|s.hist|, w0, size, s.script, consumed, last, |s.queue|);
      var hist := Play(s.hist, w0, size, s.script[..d.taken]);
      FillRan(s, size, origin, d, hist, Recordings(|s.hist|, w0, size, AcceptedOf(s.script, d), consumed, last));
      TakenPlayOn(s.hist, w0, size, s.script, consumed, last, |s.queue|);
      PlayOnWrapped(s.hist, size, s.script);
      EndDecoded(|s.hist|, w0, size, s.script, consumed, last, |s.queue|);
      assert |hist| == |s.hist| ==> hist == s.hist;
    }
  }

  /** Fills until a position is reached leave the source as it was, or with less to do. */
  lemma {:induction false} SupplyKeeps(s: Source, size: nat, origin: nat, end: int)
    requires Readable(s, size, origin) && Ending(s)
    ensures var (e, s') := Supply(s, size, origin, end);
      && Ending(s') && Final(s', size) == Final(s, size) && (e == None && s' != s ==> |s'.script| < |s.script|)
      && s.queue <= s'.queue && s.hist <= s'.hist && (e == Some(EndOfFile) ==> s'.script == [])
    decreases |s.script|
  {
    hide FillOf;
    hide PlayOn;
    hide Ending;
    SupplyStep(s, size, origin, end);
    if end > |s.hist| {
      FillKeeps(s, size, origin);
      FillQueues(s, size, origin);
      var (e, s') := FillOf(s, size, origin);
      if e == None {
        SupplyKeeps(s', size, origin, end);
      }
    }
  }

  lemma FillQueues(s: Source, size: nat, origin: nat)
    requires Readable(s, size, origin)
    ensures s.queue <= FillOf(s, size, origin).1.queue
  {
    hide DecodingOf;
    hide Play;
    hide Recordings;
  }

  // Reading to the end.

  /** What a reader outputs, the groups of filters applied, the source and the place where it stops, and why. */
  datatype Told = Told(out: seq<byte>, groups: seq<seq<Interval>>, s: Source, origin: nat, e: Error)

  /** The source as it is when there is no more output. */
  ghost function AtEnd(s: Source, size: nat, origin: nat): Source
    requires Readable(s, size, origin)
  {
    var (e, s1) := if origin == |s.hist| then FillOf(s, size, origin) else (None, s);
    if e == None && s1.queue != [] && s1.queue[0].start == origin then
      Supply(s1, size, origin, origin + s1.queue[0].length).1
    else s1
  }

  /** Output brings the reading on: there is less to do, to filter or to take. */
  ghost predicate Further(s: Source, origin: nat, s': Source, origin': nat) {
    && origin <= origin' <= |s'.hist| && s.hist <= s'.hist && origin <= |s.hist|
    && (|s'.script| < |s.script| || (s' == s && origin < origin')
        || (|s'.script| == |s.script| && |s'.queue| < |s.queue|))
  }

  /** Output is the next bytes, or what a group of filters makes of them; what is left is what there was, less that. */
  ghost predicate Proper(s: Source, size: nat, origin: nat, tot: nat, d: Decoded) {
    d.Output? ==>
      && Readable(d.s, size, d.origin) && Ending(d.s) && Readable(s, size, origin) && Final(d.s, size) == Final(s, size)
      && Further(s, origin, d.s, d.origin)
      && if d.g == [] then d.out == d.s.hist[origin..d.origin]
         else
           && Together(d.g) && d.g[0].start == origin && d.g[0].length >= 0 && d.origin == origin + d.g[0].length
           && Chain(d.g, d.s.hist[origin..d.origin], tot) == Some(d.out)
  }

  lemma BlockKeeps(s: Source, size: nat, origin: nat, tot: nat)
    requires Readable(s, size, origin) && Ending(s) && s.queue != [] && s.queue[0].start == origin
    ensures Proper(s, size, origin, tot, BlockOf(s, size, origin, tot))
  {
    hide Supply;
    hide PlayOn;
    hide Chain;
    hide ChainFault;
    hide Leading;
    var end := origin + s.queue[0].length;
    SupplyKeeps(s, size, origin, end);
    var (e, s1) := Supply(s, size, origin, end);
    if e == None {
      LeadingTogether(s1.queue, origin);
      ChainFaults(Leading(s1.queue, origin), s1.hist[origin..end], tot);
    }
  }

  lemma {:induction false} LeadingTogether(intervals: seq<Interval>, position: int)
    ensures forall k :: 0 <= k < |Leading(intervals, position)| ==> Leading(intervals, position)[k].start == position
    ensures intervals != [] && intervals[0].start == position ==> Leading(intervals, position) != []
  {
    if intervals != [] && intervals[0].start == position {
      LeadingTogether(intervals[1..], position);
    }
  }

  lemma NextKeeps(s: Source, size: nat, origin: nat, tot: nat)
    requires Readable(s, size, origin) && Ending(s) && origin < |s.hist|
    ensures Proper(s, size, origin, tot, NextOf(s, size, origin, tot))
  {
    hide PlayOn;
    hide Ending;
    hide BlockOf;
    if s.queue != [] && s.queue[0].start == origin {
      BlockKeeps(s, size, origin, tot);
    }
  }

  /** After a fill that wrote nothing. */
  lemma NextNone(s: Source, size: nat, origin: nat, tot: nat)
    requires Readable(s, size, origin) && Ending(s) && origin == |s.hist|
    ensures if s.queue != []
      && s.queue[0].start == origin then Proper(s, size, origin, tot, NextOf(s, size, origin, tot))
      else NextOf(s, size, origin, tot).Output? ==> NextOf(s, size, origin, tot) == Output([], [], s, origin)
  {
    hide PlayOn;
    hide Ending;
    hide BlockOf;
    if s.queue != [] && s.queue[0].start == origin {
      BlockKeeps(s, size, origin, tot);
    }
    assert s.hist[origin..] == [];
  }

  /** More was done since an earlier source. */
  lemma ProperSince(s: Source, s1: Source, size: nat, origin: nat, tot: nat, d: Decoded)
    requires Readable(s, size, origin) && Readable(s1, size, origin) && |s1.script| < |s.script| && s.hist <= s1.hist
    requires Final(s1, size) == Final(s, size) && Ending(s1)
    requires Proper(s1, size, origin, tot, d) || (d == Output([], [], s1, origin) && origin == |s1.hist|)
    ensures Proper(s, size, origin, tot, d)
  {
    hide PlayOn;
    hide Ending;
    hide Chain;
    assert s1.hist[origin..origin] == [];
  }

  /** The next output, after a fill when all that was there was read. */
  lemma DecodeKeeps(s: Source, size: nat, origin: nat, tot: nat)
    requires Readable(s, size, origin) && Ending(s)
    ensures Proper(s, size, origin, tot, DecodeOf(s, size, origin, tot))
  {
    hide PlayOn;
    hide Ending;
    hide FillOf;
    hide NextOf;
    hide Proper;
    if origin == |s.hist| {
      FillKeeps(s, size, origin);
      var (e, s1) := FillOf(s, size, origin);
      if e == None {
        if origin < |s1.hist| { NextKeeps(s1, size, origin, tot); } else { NextNone(s1, size, origin, tot); }
        var d := NextOf(s1, size, origin, tot);
        if d.Output? {
          ProperSince(s, s1, size, origin, tot, d);
        } else {
          HaltedProper(s, size, origin, tot, d.e);
        }
      } else {
        HaltedProper(s, size, origin, tot, e.value);
      }
    } else {
      NextKeeps(s, size, origin, tot);
    }
  }

  lemma HaltedProper(s: Source, size: nat, origin: nat, tot: nat, e: Error)
    ensures Proper(s, size, origin, tot, Halted(e))
  {}

  lemma {:induction false} FaultIsNoEnd(blocks: seq<Interval>, b: seq<byte>, tot: nat)
    ensures ChainFault(blocks, b, tot) != Some(EndOfFile)
  {
    if blocks != [] && blocks[0].length == |b| && blocks[0].filter(b, tot).Some? {
      FaultIsNoEnd(blocks[1..], blocks[0].filter(b, tot).value, tot);
    }
  }

  /** When there is no more output, the history is part of what it comes to; all of it at the end of the file. */
  lemma AtEndKeeps(s: Source, size: nat, origin: nat, tot: nat)
    requires Readable(s, size, origin) && Ending(s)
    ensures var s1 := AtEnd(s, size, origin);
      && s.hist <= s1.hist && 0 < size <= |s1.hist| && s1.w <= size && Final(s1, size) == Final(s, size)
      && (DecodeOf(s, size, origin, tot) == Halted(EndOfFile) ==> s1.script == [])
  {
    hide PlayOn;
    hide FillOf;
    hide Supply;
    hide ChainFault;
    hide Chain;
    hide Leading;
    hide Ending;
    if origin == |s.hist| {
      FillKeeps(s, size, origin);
    }
    var (e, s1) := if origin == |s.hist| then FillOf(s, size, origin) else (None, s);
    if e == None && s1.queue != [] && s1.queue[0].start == origin {
      var end := origin + s1.queue[0].length;
      SupplyKeeps(s1, size, origin, end);
      var (f, s2) := Supply(s1, size, origin, end);
      if f == None { FaultIsNoEnd(Leading(s2.queue, origin), s2.hist[origin..end], tot); }
    }
  }

  /** Read until there is no more output. */
  ghost function AllOutput(s: Source, size: nat, origin: nat, tot: nat): (t: Told)
    requires Readable(s, size, origin) && Ending(s)
    decreases |s.script|, |s.queue|, |s.hist| - origin
  {
    DecodeKeeps(s, size, origin, tot);
    match DecodeOf(s, size, origin, tot)
    case Halted(e) => Told([], [], AtEnd(s, size, origin), origin, e)
    case Output(out, g, s', origin') =>
      var t := AllOutput(s', size, origin', tot + |out|);
      t.(out := out + t.out, groups := (if g == [] then [] else [g]) + t.groups)
  }

  /** One piece of output more. */
  lemma RenderPiece(s: Source, size: nat, origin: nat, base: nat, groups: seq<seq<Interval>>, before: seq<byte>,
                    d: Decoded)
    requires Proper(s, size, origin, |before|, d) && d.Output? && base <= origin <= |s.hist|
    requires Render(s.hist, base, origin, groups) == Some(before)
    ensures d.origin <= |d.s.hist|
    ensures Render(d.s.hist, base, d.origin, groups + if d.g == [] then [] else [d.g]) == Some(before + d.out)
  {
    hide PlayOn;
    hide Ending;
    hide Chain;
    hide Render;
    RenderKept(s.hist, d.s.hist, base, origin, groups);
    if d.g == [] {
      assert groups + [] == groups;
      RenderMore(d.s.hist, base, origin, d.origin, groups);
    } else {
      RenderGroup(d.s.hist, base, origin, groups, d.g);
    }
  }

  /** All output together is the history with the groups of filters each applied to its interval, as far as the reader
      came; and at the end of the file the history is all that the decoder had to do. */
  lemma {:induction false} OutputRenders(s: Source, size: nat, origin: nat, base: nat, groups: seq<seq<Interval>>,
                                         before: seq<byte>)
    requires Readable(s, size, origin) && Ending(s) && base <= origin
    requires Render(s.hist, base, origin, groups) == Some(before)
    ensures var t := AllOutput(s, size, origin, |before|);
      && base <= t.origin <= |t.s.hist| && Render(t.s.hist, base, t.origin, groups + t.groups) == Some(before + t.out)
      && t.s.hist <= Final(s, size) && (t.e == EndOfFile ==> t.s.hist == Final(s, size))
    decreases |s.script|, |s.queue|, |s.hist| - origin
  {
    hide PlayOn;
    hide Ending;
    hide DecodeOf;
    hide Render;
    hide AtEnd;
    DecodeKeeps(s, size, origin, |before|);
    var d := DecodeOf(s, size, origin, |before|);
    if d.Halted? {
      AtEndKeeps(s, size, origin, |before|);
      var s1 := AtEnd(s, size, origin);
      RenderKept(s.hist, s1.hist, base, origin, groups);
      FinalStops(s1, size);
      assert groups + [] == groups && before + [] == before;
    } else {
      var g := if d.g == [] then [] else [d.g];
      RenderPiece(s, size, origin, base, groups, before, d);
      OutputRenders(d.s, size, d.origin, base, groups + g, before + d.out);
      var t := AllOutput(d.s, size, d.origin, |before| + |d.out|);
      assert groups + g + t.groups == groups + (g + t.groups) && before + d.out + t.out == before + (d.out + t.out);
    }
  }

  lemma FinalStops(s: Source, size: nat)
    requires 0 < size <= |s.hist| && s.w <= size
    ensures s.hist <= Final(s, size) && (s.script == [] ==> s.hist == Final(s, size))
  {}

  /** No filter is queued or to come, and the decoding ends with the end of the file. */
  ghost predicate Plain(s: Source) {
    && s.queue == [] && (s.err == None || s.err == Some(EndOfFile))
    && forall k :: 0 <= k < |s.script| ==>
         !s.script[k].Queued? && (s.script[k].Stop? ==> s.script[k].error == Some(EndOfFile))
  }

  lemma {:induction false} PlainDecoded(at: nat, w: nat, size: nat, script: seq<Event>, consumed: nat, last: int,
                                        count: nat)
    requires 0 < size && w <= size
    requires forall k :: 0 <= k < |script| ==>
      !script[k].Queued? && (script[k].Stop? ==> script[k].error == Some(EndOfFile))
    ensures var d := DecodingOf(at, w, size, script, consumed, last, count);
      && !d.refused && (d.e == None || d.e == Some(EndOfFile))
      && Recordings(at, w, size, script[..d.taken], consumed, last) == []
    decreases |script|
  {
    hide Mod;
    if w < size && script != [] && !script[0].Stop? {
      var n := Writes(script[0], w, size);
      PlainDecoded(at + n, w + n, size, script[1..], consumed, last, count);
      var d := DecodingOf(at + n, w + n, size, script[1..], consumed, last, count);
      assert script[..d.taken + 1][1..] == script[1..][..d.taken];
    } else if w < size && script != [] {
      assert script[..1][1..] == [];
    }
  }

  lemma PlainFill(s: Source, size: nat, origin: nat)
    requires Readable(s, size, origin) && Plain(s)
    ensures var (e, s') := FillOf(s, size, origin); Plain(s') && (e == None || e == Some(EndOfFile))
  {
    hide DecodingOf;
    hide Play;
    hide Recordings;
    hide FillOf;
    hide LastOf;
    if s.err != None {
      FillKept(s, size, origin);
    } else {
      var w0, consumed, last := Wrapped(s.w, size), |s.hist| - origin, LastOf(origin, s.queue);
      var d := DecodingOf(|s.hist|, w0, size, s.script, consumed, last, |s.queue|);
      PlainDecoded(|s.hist|, w0, size, s.script, consumed, last, |s.queue|);
      FillRan(s, size, origin, d, Play(s.hist, w0, size, s.script[..d.taken]),
              Recordings(|s.hist|, w0, size, AcceptedOf(s.script, d), consumed, last));
    }
  }

  /** Without filters the reader outputs everything, and then the end of the file. */
  lemma {:induction false} PlainOutput(s: Source, size: nat, origin: nat, tot: nat)
    requires Readable(s, size, origin) && Ending(s) && Plain(s)
    ensures var t := AllOutput(s, size, origin, tot);
      t.e == EndOfFile && t.groups == [] && t.origin == |t.s.hist|
    decreases |s.script|, |s.queue|, |s.hist| - origin
  {
    hide PlayOn;
    hide Ending;
    hide FillOf;
    hide Plain;
    hide DecodeOf;
    DecodeKeeps(s, size, origin, tot);
    PlainDecode(s, size, origin, tot);
    var d := DecodeOf(s, size, origin, tot);
    if d.Output? {
      PlainOutput(d.s, size, d.origin, tot + |d.out|);
    }
  }

  lemma PlainDecode(s: Source, size: nat, origin: nat, tot: nat)
    requires Readable(s, size, origin) && Plain(s) && Ending(s)
    ensures var d := DecodeOf(s, size, origin, tot);
      if d.Output? then Plain(d.s) && d.g == []
      else d.e == EndOfFile && origin == |AtEnd(s, size, origin).hist|
  {
    hide FillOf;
    hide PlayOn;
    if origin == |s.hist| {
      PlainFill(s, size, origin);
      FillKeeps(s, size, origin);
    }
  }

  /** Without filters, all output together is exactly what the decoder wrote. */
  lemma PlainRenders(s: Source, size: nat)
    requires Readable(s, size, |s.hist|) && Ending(s) && Plain(s)
    ensures var t := AllOutput(s, size, |s.hist|, 0); t.e == EndOfFile && t.out == Final(s, size)[|s.hist|..]
  {
    hide PlayOn;
    hide Ending;
    hide Plain;
    hide AllOutput;
    var at := |s.hist|;
    RenderNone(s.hist, at);
    PlainOutput(s, size, at, 0);
    OutputRenders(s, size, at, at, [], []);
    var t := AllOutput(s, size, at, 0);
    assert [] + t.groups == [] && [] + t.out == t.out;
  }
}

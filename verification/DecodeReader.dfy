/** The decode reader: a decoder fills a sliding window, and queued filters rewrite parts of what is read from it. */
module DecodeReaders {
  import opened Machine
  import opened Decodings
  import opened LzWindow
  import opened FilterQueue

  lemma SliceJoin(s: seq<byte>, a: nat, m: nat, b: nat)
    requires a <= m <= b <= |s|
    ensures s[a..m] + s[m..b] == s[a..b]
  {}

  lemma NoneHeld(emitted: seq<byte>)
    ensures emitted[..|emitted|] == emitted
  {}

  lemma NewHeld(before: seq<byte>, emitted: seq<byte>, outbuf: seq<byte>)
    requires emitted == before + outbuf
    ensures emitted[..|emitted| - |outbuf|] == before
  {}

  /** Handing n more bytes over. */
  lemma HandOver(emitted: seq<byte>, outbuf: seq<byte>, n: nat)
    requires n <= |outbuf| <= |emitted| && emitted[|emitted| - |outbuf|..] == outbuf
    ensures emitted[|emitted| - |outbuf[n..]|..] == outbuf[n..]
    ensures emitted[..|emitted| - |outbuf[n..]|] == emitted[..|emitted| - |outbuf|] + outbuf[..n]
  {
    assert outbuf[..n] == emitted[|emitted| - |outbuf|..][..n];
    assert outbuf[n..] == emitted[|emitted| - |outbuf|..][n..];
  }

  function LargestOf(a: nat, b: nat, c: nat): (m: nat)
    ensures m == a || m == b || m == c
    ensures a <= m && b <= m && c <= m
  {
    if a >= b && a >= c then a else if b >= c then b else c
  }

  class DecodeReader {
    var win: array<byte>
    var size: nat
    var r: nat
    var w: nat
    var fl: seq<FilterBlock>
    var outbuf: seq<byte>
    var tot: nat
    var err: Option<Error>
    // What the decoder has still to do.
    var script: seq<Event>
    // All bytes ever in the window, and how many there were when this file began.
    ghost var hist: seq<byte>
    ghost var base: nat
    // The stream position that the first queued offset counts from, and all filters queued so far.
    ghost var origin: nat
    ghost var queued: seq<Interval>
    // The filters applied, and the output so far.
    ghost var groups: seq<seq<Interval>>
    ghost var emitted: seq<byte>

    /** The window holds the latest history, and r lags the part not read yet. */
    ghost predicate Window()
      reads `win, `size, `r, `w, `hist, `base, win
    {
      && 0 < size == win.Length <= |hist| && r <= w <= size && Ring(win[..], w, hist)
      && base <= |hist| - (w - r)
    }

    /** How much of the history was read. */
    ghost function Taken(): nat
      requires Window()
      reads `win, `size, `r, `w, `hist, `base, win
    {
      |hist| - (w - r)
    }

    /** How many bytes the window has room for. */
    ghost function Room(): nat
      requires Window()
      reads `win, `size, `r, `w, `hist, `base, win
    {
      size - w
    }

    /** The queue holds, at their stream positions, the filters not applied yet. */
    ghost predicate Lined()
      reads `fl, `origin, `queued, `groups
    {
      && Flatten(groups) + Absolute(fl, origin) == queued
      && Orderly(fl)
    }

    /** Everything output is the stream so far, filtered. */
    ghost predicate Rendered()
      requires Window()
      reads `win, `size, `r, `w, `hist, `base, `groups, `emitted, `tot, win
    {
      && Render(hist, base, Taken(), groups) == Some(emitted) && tot == |emitted|
      && forall k :: 0 <= k < |groups| ==> Together(groups[k])
    }

    ghost predicate Valid()
      reads this, win
    {
      && Window() && Lined() && Rendered() && origin == Taken()
      && |outbuf| <= |emitted| && emitted[|emitted| - |outbuf|..] == outbuf
    }

    /** The output that was handed out. */
    ghost function Delivered(): seq<byte>
      requires |outbuf| <= |emitted|
      reads `emitted, `outbuf
    {
      emitted[..|emitted| - |outbuf|]
    }

    /** A reader before its first file. */
    ghost predicate Blank()
      reads this
    {
      win.Length == 0 == size == r == w && fl == [] && hist == []
    }

    constructor ()
      ensures Blank() && fresh(win)
    {
      win := new byte[0];
      size, r, w, fl, outbuf, tot, err, script := 0, 0, 0, [], [], 0, None, [];
      hist, base, origin, queued, groups, emitted := [], 0, 0, [], [], [];
    }

    /** Copy what the window holds, in order, to the start of a larger one. */
    method Unroll(b: array<byte>)
      requires Window() && b != win && b.Length > win.Length && forall i :: 0 <= i < b.Length ==> b[i] == 0
      modifies b
      ensures |old(Unrolled(win[..], w))| == win.Length
      ensures forall i :: 0 <= i < b.Length ==> b[i] == if i < win.Length then old(Unrolled(win[..], w))[i] else 0
    {
      hide Ring;
      hide Unrolled;
      UnrolledAt(win[..], w);
      var n := win.Length - w;
      forall k | 0 <= k < n {
        b[k] := win[w + k];
      }
      forall k | 0 <= k < w {
        b[n + k] := win[k];
      }
    }

    /** Move to a larger window: an empty one, or one that begins with what the old one held, in order. */
    method Grow(wanted: nat, reset: bool)
      requires (Blank() || Window()) && wanted > win.Length
      modifies `win, `size, `w, `hist
      ensures fresh(win) && size == win.Length == wanted <= |hist| && w <= size && Ring(win[..], w, hist)
      ensures w == if reset || old(Blank()) then 0 else old(size)
      ensures reset || old(Blank()) ==> LastPart(hist, size) == Zeros(size)
      ensures !reset && !old(Blank()) ==> LastPart(hist, old(size)) == old(LastPart(hist, size))
    {
      hide Ring;
      hide Unrolled;
      hide Zeros;
      hide LastPart;
      var b := new byte[wanted](_ => 0);
      if reset || win.Length == 0 {
        w := 0;
        hist := Zeros(wanted);
        LastAll(hist);
        ZerosRing(b[..]);
      } else {
        ghost var kept := Unrolled(win[..], w);
        UnrolledIsLast(win[..], w, hist);
        TailIs(Zeros(wanted - size), kept);
        Unroll(b);
        UnrolledRing(b[..], kept);
        hist := Zeros(wanted - size) + kept;
        w := win.Length;
      }
      win := b;
      size := wanted;
    }

    /** Make the window large enough, and empty on reset; what it held otherwise stays the end of the history. */
    method PrepareWindow(newSize: nat, reset: bool)
      requires Blank() || Window()
      modifies `win, `size, `w, `hist, win
      ensures size == win.Length <= |hist| && w <= size && Ring(win[..], w, hist)
      ensures size == LargestOf(0x4_0000, newSize, old(size)) && (win == old(win) || fresh(win))
      ensures w == if reset || old(Blank()) then 0 else if size > old(size) then old(size) else old(w)
      ensures reset || old(Blank()) ==> LastPart(hist, size) == Zeros(size)
      ensures !reset && !old(Blank()) ==> LastPart(hist, old(size)) == old(LastPart(hist, size))
    {
      hide Ring;
      hide Zeros;
      hide LastPart;
      hide Unrolled;
      var wanted := if newSize < MIN_WINDOW then MIN_WINDOW else newSize;
      if wanted > win.Length {
        Grow(wanted, reset);
      } else if reset {
        Clear();
      }
    }

    method Clear()
      requires Window()
      modifies `w, `hist, win
      ensures w == 0 && size <= |hist| && Ring(win[..], w, hist) && LastPart(hist, size) == Zeros(size)
    {
      hide Ring;
      forall i | 0 <= i < win.Length {
        win[i] := 0;
      }
      w := 0;
      hist := Zeros(size);
      LastAll(hist);
      ZerosRing(win[..]);
    }

    /** Begin a file with a window of at least newSize bytes: an empty one on reset, else with all that was in it. */
    method Init(newSize: nat, reset: bool, events: seq<Event>)
      requires Blank() || (Window() && Orderly(fl))
      modifies this, win
      ensures Valid() && Taken() == |hist| == base && emitted == [] && outbuf == [] && err == None && script == events
      ensures size == LargestOf(0x4_0000, newSize, old(size)) && (win == old(win) || fresh(win))
      ensures w == if reset || old(Blank()) then 0 else if size > old(size) then old(size) else old(w)
      ensures fl == if reset then [] else old(fl)
      ensures reset || old(Blank()) ==> LastPart(hist, size) == Zeros(size)
      ensures !reset && !old(Blank()) ==> old(size) <= size && LastPart(hist, old(size)) == old(LastPart(hist, size))
    {
      hide Ring;
      hide Zeros;
      hide LastPart;
      hide Rendered;
      hide Window;
      hide Lined;
      PrepareWindow(newSize, reset);
      outbuf, tot, err, script := [], 0, None, events;
      if reset {
        fl := [];
      }
      StartStream();
    }

    /** Count the output, and what is still queued, from here. */
    method StartStream()
      requires 0 < size == win.Length <= |hist| && w <= size && Ring(win[..], w, hist) && Orderly(fl) && outbuf == []
        && tot == 0
      modifies `r, `base, `origin, `groups, `emitted, `queued
      ensures Valid() && Taken() == |hist| == base && emitted == []
    {
      hide Ring;
      hide Lined;
      hide Rendered;
      hide Window;
      hide Valid;
      hide Absolute;
      hide Taken;
      hide Orderly;
      r := w;
      base, origin, groups, emitted := |hist|, |hist|, [], [];
      queued := Absolute(fl, origin);
      StartIsValid();
    }

    lemma StartIsValid()
      requires 0 < size == win.Length <= |hist| && r == w <= size && Ring(win[..], w, hist) && Orderly(fl)
      requires base == origin == |hist| && groups == [] && emitted == [] && outbuf == [] && tot == 0
        && queued == Absolute(fl, origin)
      ensures Valid() && Taken() == |hist|
    {
      hide Absolute;
      hide Flatten;
      hide Ring;
      hide Render;
      hide Orderly;
      FlattenNone(queued);
      RenderNone(hist, base);
    }

    method WriteByte(c: byte)
      requires Window() && w < size
      modifies `w, `hist, win
      ensures Window() && w == old(w) + 1 && hist == old(hist) + [c]
    {
      RingWrite(win[..], w, hist, c);
      win[w] := c;
      w := w + 1;
      hist := hist + [c];
    }

    /** The built-in copy: as if the source were read before anything is written. */
    method CopyPiece(at: nat, i: nat, n: nat)
      requires at + n <= win.Length && i + n <= win.Length
      modifies win
      ensures forall k :: 0 <= k < win.Length ==>
        win[..][k] == if at <= k < at + n then old(win[..])[i..i + n][k - at] else old(win[..])[k]
    {
      forall k | 0 <= k < n {
        win[at + k] := win[i + k];
      }
    }

    /** Copy a piece of the window to its next place, all at once; d is how far back the piece begins. */
    method CopyWithin(i: nat, end: nat, ghost d: nat) returns (n: nat)
      requires Window() && i <= end <= size && 1 <= d <= size && end - i <= d
      requires i == w - d || i == w - d + size
      modifies `w, `hist, win
      ensures Window() && n == Min(size - old(w), end - i) && w == old(w) + n
      ensures hist == Repeat(old(hist), d, n)
    {
      hide Ring;
      hide Repeat;
      n := Min(size - w, end - i);
      ghost var before := win[..];
      RepeatPiece(before, w, hist, d, i, n);
      CopyPiece(w, i, n);
      RingWriteAll(before, win[..], w, hist, before[i..i + n]);
      hist := hist + before[i..i + n];
      w := w + n;
    }

    /** Copy byte after byte, so that bytes just written can be copied again. */
    method CopyEach(from: nat, count: nat, ghost d: nat)
      requires Window() && from <= w && 1 <= d <= size && (from == w - d || from == w - d + size)
      modifies `w, `hist, win
      ensures Window() && var n := Min(size - old(w), count); w == old(w) + n && hist == Repeat(old(hist), d, n)
    {
      hide Ring;
      hide Repeat;
      ghost var start, w0 := hist, w;
      RepeatNone(hist, d);
      var i, left := from, count;
      while left > 0 && w < size
        invariant Window() && w0 <= w && 0 <= left && left + (w - w0) == count
        invariant 0 <= i <= w && (i == w - d || i == w - d + size)
        invariant hist == Repeat(start, d, w - w0)
      {
        RingSource(win[..], w, hist, d, i);
        RepeatNext(start, d, w - w0);
        WriteByte(win[i]);
        i := i + 1;
        left := left - 1;
      }
    }

    /** Copy all at once when the source was complete before the copy, and byte after byte otherwise. */
    method CopyRest(i: nat, left: nat, ghost d: nat)
      requires Window() && i <= w && 1 <= d <= size && (i == w - d || i == w - d + size)
      modifies `w, `hist, win
      ensures Window() && var n := Min(size - old(w), left); w == old(w) + n && hist == Repeat(old(hist), d, n)
    {
      if i + left <= w {
        RepeatNone(hist, d);
        if left > 0 {
          var n := CopyWithin(i, i + left, d);
        }
        return;
      }
      CopyEach(i, left, d);
    }

    /** Append length bytes of the window's history, from a distance of offset, as far as they fit. */
    method CopyBytes(length: int, offset: int)
      requires Window()
      modifies `w, `hist, win
      ensures Window() && var n := Min(Mod(length, size), size - old(w));
        w == old(w) + n && hist == Repeat(old(hist), Distance(offset, size), n)
    {
      hide Ring;
      hide Repeat;
      hide Distance;
      hide Mod;
      ghost var d := Distance(offset, size);
      ghost var start := hist;
      var left := Mod(length, size);
      var i := Mod(w - offset, size);
      SourcePlace(w, offset, size);
      if i > w {
        var end := if i + left > size then size else i + left;
        var n := CopyWithin(i, end, d);
        left := left - n;
        if left == 0 {
          return;
        }
        RepeatTwice(start, d, n, Min(size - w, left));
        i := 0;
      }
      CopyRest(i, left, d);
    }

    /** The interval recorded for a filter that is queued now behind the others. */
    ghost function RecordedBlock(block: FilterBlock, others: seq<FilterBlock>): Interval
      requires Window() && origin <= Taken()
      reads `win, `size, `r, `w, `hist, `base, `origin, win
    {
      Interval(Recorded(|hist| + block.offset, Taken() - origin, LastStart(others, origin), size),
               Mod(block.length, size), block.filter)
    }

    /** Add a filter whose block starts block.offset after what was written so far. */
    method QueueFilter(block: FilterBlock) returns (e: Option<Error>)
      requires Window() && Lined() && origin <= Taken()
      modifies `fl, `queued
      ensures Lined()
      ensures var asked, consumed := |hist| + block.offset, Taken() - origin;
        && e == Refusal(|old(fl)|, LastStart(old(fl), origin), asked, consumed)
        && (e == Some(TooManyFilters) <==> |old(fl)| >= 8192)
        && (e == Some(InvalidFilter) <==>
          |old(fl)| < MAX_QUEUED && StartsAfter(Absolute(old(fl), origin), asked - consumed))
      ensures e != None ==> fl == old(fl) && queued == old(queued)
      ensures e == None ==> |fl| == |old(fl)| + 1 && fl[..|old(fl)|] == old(fl)
      ensures e == None ==> queued == old(queued) + [RecordedBlock(block, old(fl))]
      ensures e == None ==> LastStart(fl, origin) == RecordedBlock(block, old(fl)).start
    {
      hide Ring;
      hide Flatten;
      hide Absolute;
      hide LastStart;
      hide Orderly;
      StartsAfterLast(fl, origin, |hist| + block.offset - (Taken() - origin));
      if |fl| >= MAX_QUEUED {
        return Some(TooManyFilters);
      }
      var ok, offset := RelativeOffset(block.offset + (w - r), origin);
      if !ok {
        return Some(InvalidFilter);
      }
      var f := FilterBlock(Mod(block.length, size), Mod(offset, size), block.filter);
      AppendFilter(f);
      e := None;
    }

    /** An offset from the read position as one from the last block, unless it lies before some block. */
    method RelativeOffset(from: int, ghost position: int) returns (ok: bool, offset: int)
      ensures ok <==> !StartsAfter(Absolute(fl, position), position + from)
      ensures ok ==> offset == position + from - LastStart(fl, position)
    {
      hide Absolute;
      hide LastStart;
      offset := from;
      LastStartNone(position);
      assert fl[..0] == [];
      for k := 0 to |fl|
        invariant offset == position + from - LastStart(fl[..k], position)
        invariant forall j :: 0 <= j < k ==> Absolute(fl, position)[j].start <= position + from
      {
        LastStartSplit(fl, position, k);
        LastStartIsLast(fl, position, k);
        if offset < fl[k].offset {
          assert Absolute(fl, position)[k].start > position + from;
          return false, offset;
        }
        offset := offset - fl[k].offset;
      }
      assert fl[..|fl|] == fl;
      ok := true;
    }

    /** Put a filter at the end of the queue. */
    method AppendFilter(f: FilterBlock)
      requires Lined() && f.length >= 0 && (fl != [] ==> f.offset >= 0)
      modifies `fl, `queued
      ensures Lined() && fl == old(fl) + [f]
      ensures queued == old(queued) + [Interval(LastStart(old(fl), origin) + f.offset, f.length, f.filter)]
      ensures LastStart(fl, origin) == LastStart(old(fl), origin) + f.offset
    {
      hide Flatten;
      hide Absolute;
      hide LastStart;
      AbsoluteAppend(fl, origin, f);
      queued := queued + [Interval(LastStart(fl, origin) + f.offset, f.length, f.filter)];
      ghost var before := fl;
      fl := fl + [f];
      LastStartSplit(fl, origin, |before|);
      assert fl[..|before|] == before && fl[..|before| + 1] == fl;
    }

    /** The intervals recorded when the decoder does these events now. */
    ghost function RecordingsNow(events: seq<Event>): seq<Interval>
      requires Window() && origin <= Taken()
      reads `win, `size, `r, `w, `hist, `base, `origin, `fl, win
    {
      Recordings(|hist|, w, size, events, Taken() - origin, LastStart(fl, origin))
    }

    /** Do one thing that the decoder asks for; true when that ends its fill. */
    method Perform(event: Event) returns (stop: bool, e: Option<Error>)
      requires Window() && Lined() && origin <= Taken() && w < size
      modifies `w, `hist, `fl, `queued, win
      ensures Window() && Lined() && Taken() == old(Taken())
      ensures |old(fl)| <= |fl| && fl[..|old(fl)|] == old(fl) && old(queued) <= queued
      ensures hist == Play(old(hist), old(w), size, [event]) && w == old(w) + |hist| - |old(hist)|
      ensures stop <==> event.Stop? || (event.Queued? && e != None)
      ensures |hist| - |old(hist)| == Writes(event, old(w), size)
      ensures event.Stop? ==> e == event.error
      ensures event.Queued? ==>
        e == Refusal(|old(fl)|, LastStart(old(fl), origin), |old(hist)| + event.block.offset, old(Taken()) - origin)
      ensures |fl| == |old(fl)| + if event.Queued? && !stop then 1 else 0
      ensures Refused(event, stop) ==> queued == old(queued) && fl == old(fl)
      ensures !Refused(event, stop) ==> queued == old(queued) + old(RecordingsNow([event]))
      ensures !Refused(event, stop) ==>
        LastStart(fl, origin) == LastOf(old(LastStart(fl, origin)), old(RecordingsNow([event])))
    {
      hide Ring;
      hide Repeat;
      hide Mod;
      hide Distance;
      hide Lined;
      hide LastStart;
      hide Recorded;
      hide Recordings;
      RecordingsOne(|hist|, w, size, event, Taken() - origin, LastStart(fl, origin));
      assert queued + [] == queued;
      stop, e := false, None;
      match event {
        case Literal(c) =>
          WriteByte(c);
        case Copy(length, offset) =>
          CopyBytes(length, offset);
        case Queued(block) =>
          e := QueueFilter(block);
          stop := e.Some?;
        case Stop(error) =>
          stop, e := true, error;
      }
    }

    /** Do the next thing that the decoder asks for. */
    method DoNext(ghost h0: seq<byte>, ghost w0: nat, ghost accepted: seq<Event>, ghost consumed: nat, ghost last: int,
                  ghost added: seq<Interval>)
      returns (stop: bool, e: Option<Error>, ghost added': seq<Interval>)
      requires Window() && Lined() && origin <= Taken() && w < size && |script| > 0
      requires Progress(h0, w0, size, accepted, consumed, last, hist, w, added, LastStart(fl, origin))
        && consumed == Taken() - origin
      modifies `w, `hist, `fl, `queued, `script, win
      ensures Window() && Lined() && Taken() == old(Taken()) && script == old(script)[1..]
      ensures |old(fl)| <= |fl| && fl[..|old(fl)|] == old(fl)
      ensures stop <==> old(script[0]).Stop? || (old(script[0]).Queued? && e != None)
      ensures 0 < size <= |h0| && w0 <= size && hist == Play(h0, w0, size, accepted + [old(script[0])])
      ensures added <= added' && queued == old(queued) + added'[|added|..]
      ensures added'
        == Recordings(|h0|, w0, size, if Refused(old(script[0]), stop) then accepted else accepted + [old(script[0])],
                      consumed, last)
      ensures !stop ==>
        Progress(h0, w0, size, accepted + [old(script[0])], consumed, last, hist, w, added', LastStart(fl, origin))
      ensures var d :=
        DecodingOf(|old(hist)|, old(w), size, old(script), consumed, LastStart(old(fl), origin), |old(fl)|);
        if stop then d == Decoding(1, Refused(old(script[0]), stop), e)
        else w <= size && d == Later(DecodingOf(|hist|, w, size, script, consumed, LastStart(fl, origin), |fl|), 1)
    {
      hide Ring;
      hide Lined;
      hide Play;
      hide Recordings;
      hide LastStart;
      hide LastOf;
      hide Progress;
      hide Absolute;
      hide Refusal;
      hide Writes;
      hide Recorded;
      hide DecodingOf;
      var event := script[0];
      ghost var now, h, lastNow := RecordingsNow([event]), Play(hist, w, size, [event]), LastStart(fl, origin);
      ProgressMeans(h0, w0, size, accepted, consumed, last, hist, w, added, lastNow);
      ProgressMore(h0, w0, size, accepted, consumed, last, hist, w, added, lastNow, event);
      ProgressMeans(h0, w0, size, accepted + [event], consumed, last, h, w + |h| - |hist|, added + now,
                    LastOf(lastNow, now));
      RecordingsOne(|hist|, w, size, event, consumed, lastNow);
      LastOfOne(lastNow, now);
      script := script[1..];
      stop, e := Perform(event);
      added' := if Refused(event, stop) then added else added + now;
      assert added'[|added|..] == if Refused(event, stop) then [] else now;
      assert old(queued) + [] == old(queued);
      if !Refused(event, stop) {
        DecodingStep(|old(hist)|, old(w), size, old(script), consumed, lastNow, |old(fl)|, e, LastOf(lastNow, now));
      } else {
        DecodingStep(|old(hist)|, old(w), size, old(script), consumed, lastNow, |old(fl)|, e,
                     Recorded(|old(hist)| + event.block.offset, consumed, lastNow, size));
      }
    }

    /** Let the decoder run until the window is full or it ends its fill; `accepted` is what it did, which is all of
        what it asked for but a filter that the queue refuses. */
    method RunDecoder() returns (e: Option<Error>, ghost accepted: seq<Event>)
      requires Window() && Lined() && origin <= Taken() && w < size
      modifies `w, `hist, `fl, `queued, `script, win
      ensures Window() && Lined() && Taken() == old(Taken())
      ensures |old(fl)| <= |fl| && fl[..|old(fl)|] == old(fl)
      ensures queued == old(queued) + old(RecordingsNow(accepted))
      ensures var d :=
        DecodingOf(|old(hist)|, old(w), size, old(script), old(Taken()) - origin, LastStart(old(fl), origin),
                   |old(fl)|);
        && e == d.e && script == old(script)[d.taken..] && accepted == AcceptedOf(old(script), d)
        && hist == Play(old(hist), old(w), size, old(script)[..d.taken])
    {
      hide Ring;
      hide Lined;
      hide Play;
      hide Recordings;
      hide LastStart;
      hide LastOf;
      hide Progress;
      hide Absolute;
      ghost var h0, w0, s0, consumed, last := hist, w, script, Taken() - origin, LastStart(fl, origin);
      ghost var all := DecodingOf(|hist|, w, size, script, consumed, last, |fl|);
      ghost var added: seq<Interval> := [];
      ProgressStart(hist, w, size, consumed, last);
      accepted := [];
      assert queued + [] == queued;
      while w < size && |script| > 0
        invariant Window() && Lined() && Taken() == old(Taken())
        invariant |old(fl)| <= |fl| && fl[..|old(fl)|] == old(fl)
        invariant |script| <= |s0| && script == s0[|s0| - |script|..] && accepted == s0[..|s0| - |script|]
        invariant Progress(h0, w0, size, accepted, consumed, last, hist, w, added, LastStart(fl, origin))
          && queued == old(queued) + added
        invariant w <= size
          && all == Later(DecodingOf(|hist|, w, size, script, consumed, LastStart(fl, origin), |fl|), |s0| - |script|)
        decreases |script|
      {
        ghost var event, before := script[0], added;
        assert accepted + [event] == s0[..|s0| - |script| + 1];
        var stop;
        stop, e, added := DoNext(h0, w0, accepted, consumed, last, added);
        assert old(queued) + before + added[|before|..] == old(queued) + added;
        if !Refused(event, stop) {
          accepted := accepted + [event];
        }
        if stop {
          return;
        }
      }
      ProgressMeans(h0, w0, size, accepted, consumed, last, hist, w, added, LastStart(fl, origin));
      e := if w < size then Some(EndOfFile) else None;
    }

    /** What the reader has, on absolute positions. */
    ghost function SourceNow(): Source
      reads `hist, `w, `script, `err, `fl, `origin
    {
      Source(hist, w, script, err, Absolute(fl, origin))
    }

    /** What the reader has, known to be readable. */
    ghost function Ready(): (s: Source)
      requires Window() && Lined() && origin <= Taken()
      reads this, win
      ensures s == SourceNow() && Readable(s, size, origin)
    {
      SourceReadable();
      SourceNow()
    }

    lemma SourceReadable()
      requires Window() && Lined() && origin <= Taken()
      ensures Readable(SourceNow(), size, origin) && LastOf(origin, Absolute(fl, origin)) == LastStart(fl, origin)
    {
      OrderlyRises(fl, origin);
      AbsoluteLengths(fl, origin);
    }

    /** Filters that were queued are at the end of the queue. */
    lemma QueueGrew(before: seq<FilterBlock>, queuedBefore: seq<Interval>, added: seq<Interval>)
      requires Lined() && Flatten(groups) + Absolute(before, origin) == queuedBefore && queued == queuedBefore + added
      ensures Absolute(fl, origin) == Absolute(before, origin) + added
    {
      hide Absolute;
      hide Flatten;
      var f, a, b := Flatten(groups), Absolute(before, origin), Absolute(fl, origin);
      assert f + b == f + (a + added);
      assert b == (f + b)[|f|..] && a + added == (f + (a + added))[|f|..];
    }

    /** Begin again at the start of a window that is full and read. */
    method Wrap()
      requires Window() && w == r
      modifies `r, `w
      ensures Window() && Taken() == old(Taken()) && w == r && w == (if old(w) == size then 0 else old(w)) && w < size
    {
      hide Ring;
      if w == size {
        RingWrap(win[..], hist);
        r := 0;
        w := 0;
      }
    }

    /** Let the decoder fill the window from here; `s` is what there was before the window began again. */
    method RunFill(ghost s: Source) returns (e: Option<Error>, ghost accepted: seq<Event>)
      requires Window() && Lined() && origin <= Taken() && w == r && w < size && err == None
      requires Readable(s, size, origin) && w == (if s.w == size then 0 else s.w) && SourceNow() == s.(w := w)
      modifies `w, `hist, `fl, `queued, `script, `err, win
      ensures Window() && Lined() && Taken() == old(Taken()) && old(hist) <= hist
      ensures |old(fl)| <= |fl| && fl[..|old(fl)|] == old(fl)
      ensures queued
        == old(queued) + Recordings(|old(hist)|, old(w), size, accepted, Taken() - origin, LastStart(old(fl), origin))
      ensures e != None ==> w == r
      ensures (e, SourceNow()) == FillOf(s, size, origin)
    {
      hide Window;
      hide Lined;
      hide Play;
      hide Recordings;
      hide LastStart;
      hide Absolute;
      hide DecodingOf;
      hide AcceptedOf;
      hide FillOf;
      hide Readable;
      WindowBounds();
      SourceReadable();
      LinedParts();
      ghost var queuedBefore, flBefore, at := queued, fl, w;
      err, accepted := RunDecoder();
      WindowBounds();
      ghost var added := queued[|queuedBefore|..];
      QueueGrew(flBefore, queuedBefore, added);
      FillRan(s, size, origin,
              DecodingOf(|s.hist|, at, size, s.script, Taken() - origin, LastStart(flBefore, origin), |flBefore|),
              hist, added);
      e := None;
      if w == r {
        e := err;
        err := None;
      }
    }

    /** Fill the window, which was read to its end; an error with bytes before it is kept for the next time. */
    method Fill() returns (e: Option<Error>, ghost accepted: seq<Event>)
      requires Window() && Lined() && origin <= Taken() && w == r
      modifies `r, `w, `hist, `fl, `queued, `script, `err, win
      ensures Window() && Lined() && Taken() == old(Taken())
      ensures |old(fl)| <= |fl| && fl[..|old(fl)|] == old(fl)
      ensures old(hist) <= hist
      ensures queued == old(queued) + Recordings(|old(hist)|, if old(w) == size then 0 else old(w), size, accepted,
                                                 Taken() - origin, LastStart(old(fl), origin))
      ensures e != None ==> w == r
      ensures Readable(old(SourceNow()), size, origin) && (e, SourceNow()) == FillOf(old(SourceNow()), size, origin)
    {
      hide Window;
      hide Lined;
      hide Recordings;
      hide LastStart;
      hide Absolute;
      hide FillOf;
      hide Readable;
      ghost var before := SourceNow();
      WindowBounds();
      SourceReadable();
      if err != None {
        FillKept(before, size, origin);
        RecordingsNone(|hist|, if w == size then 0 else w, size, Taken() - origin, LastStart(fl, origin));
        assert queued + [] == queued;
        e, accepted := err, [];
        err := None;
        return;
      }
      Wrap();
      e, accepted := RunFill(before);
    }

    lemma LinedParts()
      requires Lined()
      ensures Flatten(groups) + Absolute(fl, origin) == queued
    {}

    /** The next bytes of the window are the next of the stream. */
    lemma WindowPiece(n: nat)
      requires Window() && n <= w - r
      ensures win[r..r + n] == hist[Taken()..Taken() + n]
    {}

    lemma WindowBounds()
      requires Window()
      ensures base <= Taken() <= |hist| && Taken() == |hist| - (w - r) && 0 < size <= |hist| && r <= w <= size
    {}

    /** Take bytes that are in the window. */
    method Take(n: nat) returns (b: seq<byte>)
      requires Window() && n <= w - r
      modifies `r
      ensures Window() && Taken() == old(Taken()) + n <= |hist| && b == hist[old(Taken())..old(Taken()) + n]
        && r == old(r) + n
    {
      WindowPiece(n);
      b := win[r..r + n];
      r := r + n;
    }

    /** Take what the window has of the n bytes from the read position; b are those taken before. */
    method TakeMore(b: seq<byte>, n: nat) returns (b': seq<byte>)
      requires Window() && origin <= Taken() && |b| <= n && Taken() == origin + |b| && b == hist[origin..Taken()]
      modifies `r
      ensures Window() && |b| <= |b'| <= n && Taken() == origin + |b'| && b' == hist[origin..Taken()]
        && (|b'| < n ==> w == r)
      ensures n - |b| <= old(w) - old(r) ==> |b'| == n
    {
      hide Ring;
      ghost var from := Taken();
      var piece := Take(Min(n - |b|, w - r));
      SliceJoin(hist, origin, from, Taken());
      b' := b + piece;
    }

    /** Fill the window, which was read to its end, and take what it has of the n bytes. */
    method FillMore(b: seq<byte>, n: nat) returns (b': seq<byte>, e: Option<Error>)
      requires Window() && Lined() && origin <= Taken() && |b| < n && w == r && Taken() == origin + |b|
        && b == hist[origin..Taken()]
      modifies `r, `w, `hist, `fl, `queued, `script, `err, win
      ensures Window() && Lined() && old(hist) <= hist && origin <= Taken()
      ensures |old(fl)| <= |fl| && fl[..|old(fl)|] == old(fl) && old(queued) <= queued
      ensures e == None ==>
        |b'| <= n && Taken() == origin + |b'| <= |hist| && b' == hist[origin..Taken()] && (|b'| < n ==> w == r)
      ensures e == None ==> |script| < |old(script)|
      ensures e != None ==> Taken() == |hist| < origin + n
      ensures Readable(old(SourceNow()), size, origin) && Readable(SourceNow(), size, origin)
      ensures Supply(old(SourceNow()), size, origin, origin + n)
        == if e != None then (e, SourceNow()) else Supply(SourceNow(), size, origin, origin + n)
    {
      hide Window;
      hide Lined;
      hide Recordings;
      hide LastStart;
      hide FillOf;
      hide Supply;
      hide Readable;
      WindowBounds();
      SourceReadable();
      ghost var before, taken := hist, Taken();
      SupplyStep(SourceNow(), size, origin, origin + n);
      ghost var accepted;
      e, accepted := Fill();
      WindowBounds();
      if e != None {
        return b, e;
      }
      SliceKept(before, hist, origin, taken);
      b' := TakeMore(b, n);
      WindowBounds();
    }

    /** Take n bytes from the stream, filling the window as often as needed. */
    method BufBytes(n: nat) returns (b: seq<byte>, e: Option<Error>)
      requires Window() && Lined() && origin == Taken()
      modifies `r, `w, `hist, `fl, `queued, `script, `err, win
      ensures Window() && Lined() && old(hist) <= hist && origin <= Taken()
      ensures |old(fl)| <= |fl| && fl[..|old(fl)|] == old(fl) && old(queued) <= queued
      ensures e == None ==> Taken() == origin + n && b == hist[origin..origin + n]
      ensures e != None ==> Taken() == |hist| < origin + n
      ensures Readable(old(SourceNow()), size, origin)
        && (e, SourceNow()) == Supply(old(SourceNow()), size, origin, origin + n)
    {
      hide Window;
      hide Lined;
      hide Play;
      hide Recordings;
      hide LastStart;
      hide FillOf;
      hide Supply;
      hide Readable;
      ghost var all := Supply(Ready(), size, origin, origin + n);
      WindowBounds();
      b := TakeMore([], n);
      WindowBounds();
      e := None;
      while |b| < n
        invariant Window() && Lined() && old(hist) <= hist && |b| <= n && (|b| < n ==> w == r) && e == None
        invariant Taken() == origin + |b| <= |hist| && b == hist[origin..Taken()]
        invariant |old(fl)| <= |fl| && fl[..|old(fl)|] == old(fl) && old(queued) <= queued
        invariant Readable(SourceNow(), size, origin) && all == Supply(SourceNow(), size, origin, origin + n)
        decreases |script|
      {
        b, e := FillMore(b, n);
        if e != None {
          return;
        }
      }
      SupplyStep(SourceNow(), size, origin, origin + n);
    }

    /** Pop the first filter and apply it. */
    method PopFilter(b: seq<byte>, ghost all: seq<Interval>, ghost g: seq<Interval>, ghost input: seq<byte>)
      returns (out: Option<seq<byte>>, ghost g': seq<Interval>)
      requires |fl| > 0 && fl[0].offset == 0 && fl[0].length == |b| && Orderly(fl)
      requires Midway(all, g, Absolute(fl, origin), origin, input, b, tot)
      modifies `fl
      ensures fl == old(fl)[1..] && Orderly(fl)
      ensures out == None ==> ChainFault(Leading(all, origin), input, tot) == Some(FilterFailed)
      ensures out.Some? ==> g' != [] && Midway(all, g', Absolute(fl, origin), origin, input, out.value, tot)
    {
      hide Chain;
      hide Absolute;
      hide Leading;
      hide Midway;
      AbsoluteFirst(fl, origin);
      ghost var rest := Absolute(fl, origin);
      out := fl[0].filter(b, tot);
      if out == None {
        MidwayFault(all, g, rest, origin, input, b, tot);
        g' := g;
      } else {
        MidwayStep(all, g, rest, origin, input, b, tot);
        g' := g + [rest[0]];
      }
      fl := fl[1..];
    }

    /** Pop and apply the filters of one block, each to the output of the one before; then count the queue from the
        block's end. */
    method ApplyChain(input: seq<byte>) returns (b: seq<byte>, e: Option<Error>, ghost g: seq<Interval>)
      requires |fl| > 0 && fl[0].offset == 0 && fl[0].length == |input| && Orderly(fl)
      modifies `fl
      ensures e == None ==> Together(g) && g[0].start == origin && g[0].length == |input|
      ensures e == None ==> Chain(g, input, tot) == Some(b)
      ensures e == None ==> g + Absolute(fl, origin + |input|) == old(Absolute(fl, origin))
      ensures Orderly(fl)
      ensures e == None ==> g == Leading(old(Absolute(fl, origin)), origin)
      ensures e == ChainFault(Leading(old(Absolute(fl, origin)), origin), input, tot)
    {
      hide Chain;
      hide ChainFault;
      hide Absolute;
      hide Leading;
      hide Midway;
      hide Together;
      hide Orderly;
      ghost var all := Absolute(fl, origin);
      g := [];
      b := input;
      MidwayStart(all, origin, input, tot);
      while true
        invariant |fl| > 0 && fl[0].offset == 0 && fl[0].length == |b| && Orderly(fl)
        invariant Midway(all, g, Absolute(fl, origin), origin, input, b, tot)
        decreases |fl|
      {
        var out;
        out, g := PopFilter(b, all, g, input);
        if out == None {
          return [], Some(FilterFailed), g;
        }
        b := out.value;
        if |fl| == 0 || fl[0].offset != 0 {
          break;
        }
        if fl[0].length != |b| {
          AbsoluteFirst(fl, origin);
          MidwayFault(all, g, Absolute(fl, origin), origin, input, b, tot);
          return [], Some(InvalidFilter), g;
        }
      }
      LeaveBlock(all, g, input, b);
      ChainFaults(g, input, tot);
      e := None;
    }

    /** Count the queue from the end of the block that was filtered. */
    method LeaveBlock(ghost all: seq<Interval>, ghost g: seq<Interval>, input: seq<byte>, ghost b: seq<byte>)
      requires (|fl| > 0 ==> fl[0].offset != 0) && g != [] && Orderly(fl)
      requires Midway(all, g, Absolute(fl, origin), origin, input, b, tot)
      modifies `fl
      ensures Together(g) && g[0].start == origin && g[0].length == |input| && Orderly(fl)
      ensures Chain(g, input, tot) == Some(b) && g == Leading(all, origin)
      ensures g + Absolute(fl, origin + |input|) == all
    {
      hide Chain;
      hide Absolute;
      hide Leading;
      hide Midway;
      hide Together;
      AbsoluteStarts(fl, origin);
      MidwayEnd(all, g, Absolute(fl, origin), origin, input, b, tot);
      if |fl| > 0 {
        OriginMoved(fl, origin, |input|);
        fl := fl[0 := fl[0].(offset := fl[0].offset - |input|)];
      } else {
        AbsoluteNone(fl, origin, origin + |input|);
      }
    }

    /** Filter a block that was taken from the stream. */
    method FilterTaken(input: seq<byte>) returns (b: seq<byte>, e: Option<Error>, ghost g: seq<Interval>)
      requires Window() && Lined() && base <= origin && Taken() == origin + |input|
        && input == hist[origin..origin + |input|]
      requires |fl| > 0 && fl[0].offset == 0 && fl[0].length == |input|
      requires Render(hist, base, origin, groups) == Some(emitted) && tot == |emitted|
      modifies `fl, `groups, `origin
      ensures e == None ==> Window() && Lined() && origin == Taken() && origin == old(origin) + |input|
      ensures e == None ==> Render(hist, base, Taken(), groups) == Some(emitted + b)
      ensures e == None ==> groups == old(groups) + [g] && Together(g) && g[0].start == old(origin)
      ensures g == Leading(old(Absolute(fl, origin)), old(origin)) && e == ChainFault(g, input, tot)
      ensures e == None ==> Chain(g, input, tot) == Some(b) && Absolute(fl, origin) == old(Absolute(fl, origin))[|g|..]
    {
      hide Ring;
      hide Render;
      hide Flatten;
      hide Chain;
      hide Absolute;
      hide Together;
      hide Leading;
      hide Orderly;
      hide ChainFault;
      ghost var queue := Absolute(fl, origin);
      b, e, g := ApplyChain(input);
      if e != None {
        g := Leading(queue, origin);
        return;
      }
      TogetherSome(g);
      RenderGroup(hist, base, origin, groups, g);
      FlattenAppend(groups, g);
      assert queue[|g|..] == Absolute(fl, origin + |input|);
      groups := groups + [g];
      origin := origin + |input|;
    }

    /** Filter the block that starts at the read position. */
    method ProcessFilters() returns (b: seq<byte>, e: Option<Error>)
      requires Valid() && |fl| > 0 && fl[0].offset == 0
      modifies `r, `w, `hist, `fl, `queued, `script, `err, `groups, `origin, win
      ensures e == None ==> Window() && Lined() && origin == Taken() && old(hist) <= hist && old(queued) <= queued
      ensures e == None ==> Render(hist, base, Taken(), groups) == Some(emitted + b)
      ensures e == None ==> forall k :: 0 <= k < |groups| ==> Together(groups[k])
      ensures e == None ==> |groups| == |old(groups)| + 1 && groups[..|old(groups)|] == old(groups)
      ensures e == None ==> groups[|old(groups)|] != [] && groups[|old(groups)|][0].start == old(origin)
      ensures |old(Ready()).queue| > 0
      ensures Follows(BlockOf(old(Ready()), size, old(origin), tot), e, b, SourceNow(), origin, old(groups), groups)
    {
      hide Ring;
      hide Play;
      hide Render;
      hide Flatten;
      hide Window;
      hide Absolute;
      hide Together;
      hide Leading;
      hide Supply;
      hide Readable;
      hide Orderly;
      hide Chain;
      hide ChainFault;
      WindowBounds();
      FirstBlock();
      var flen := fl[0].length;
      b, e := BufBytes(flen);
      if e != None {
        return;
      }
      assert fl[0] == old(fl)[0];
      WindowBounds();
      RenderKept(old(hist), hist, base, origin, groups);
      ghost var g;
      b, e, g := FilterTaken(b);
      if e == None {
        TogetherSome(g);
      }
    }

    /** The first block of the queue on absolute positions. */
    lemma FirstBlock()
      requires |fl| > 0 && Orderly(fl)
      ensures |Absolute(fl, origin)| > 0 && Absolute(fl, origin)[0].length == fl[0].length >= 0
      ensures Absolute(fl, origin)[0].start == origin + fl[0].offset
    {}

    /** Output bytes that no filter is for. */
    method PassThrough(n: nat)
      requires Valid() && outbuf == [] && n <= w - r
      requires if |fl| == 0 then n == w - r else 0 < fl[0].offset && n == Min(fl[0].offset, w - r)
      modifies `r, `fl, `outbuf, `tot, `origin, `emitted
      ensures Valid() && Taken() == old(Taken()) + n <= |hist|
      ensures outbuf == hist[old(Taken())..old(Taken()) + n] && emitted == old(emitted) + outbuf
      ensures Taken() == NextStop() && origin == Taken() && SourceNow() == old(SourceNow())
    {
      hide Window;
      hide Render;
      hide Absolute;
      hide Lined;
      hide Rendered;
      WindowBounds();
      TotalIsOutput();
      RenderMore(hist, base, Taken(), Taken() + n, groups);
      if |fl| > 0 {
        LinedFirst();
      }
      Advance(n);
      var b := Take(n);
      Emit(b);
    }

    /** Put bytes out that are what is rendered next. */
    method Emit(b: seq<byte>)
      requires Window() && Lined() && origin == Taken() && tot == |emitted|
      requires Render(hist, base, Taken(), groups) == Some(emitted + b)
        && forall k :: 0 <= k < |groups| ==> Together(groups[k])
      modifies `outbuf, `tot, `emitted
      ensures Valid() && outbuf == b && emitted == old(emitted) + b && tot == old(tot) + |b|
    {
      hide Ring;
      hide Lined;
      hide Render;
      hide Together;
      outbuf := b;
      tot := tot + |outbuf|;
      emitted := emitted + outbuf;
    }

    /** Count the queue from n bytes further on. */
    method Advance(n: nat)
      requires Lined()
      modifies `fl, `origin
      ensures Lined() && origin == old(origin) + n && |fl| == |old(fl)|
        && Absolute(fl, origin) == old(Absolute(fl, origin))
    {
      hide Flatten;
      hide Absolute;
      if |fl| > 0 {
        OriginMoved(fl, origin, n);
        fl := fl[0 := fl[0].(offset := fl[0].offset - n)];
      } else {
        AbsoluteNone(fl, origin, origin + n);
      }
      origin := origin + n;
    }

    /** How far output goes without a filter: to the first block, or as far as the stream is there. */
    ghost function NextStop(): int
      requires Window()
      reads `win, `size, `r, `w, `hist, `base, `fl, `origin, win
    {
      if |fl| == 0 then |hist| else Min(Absolute(fl, origin)[0].start, |hist|)
    }

    /** Make more output. */
    method Decode() returns (e: Option<Error>)
      requires Valid() && outbuf == []
      modifies this, win
      ensures e == None ==> Valid() && emitted == old(emitted) + outbuf && old(hist) <= hist && old(queued) <= queued
      ensures win == old(win) && size == old(size) && base == old(base) && (e != None ==> emitted == old(emitted))
      // Bytes before the first block pass through; a block at the read position is filtered.
      ensures e == None && groups == old(groups) ==>
        old(Taken()) <= Taken() == NextStop() && outbuf == hist[old(Taken())..Taken()]
      ensures e == None && groups != old(groups) ==>
        |groups| == |old(groups)| + 1 && groups[|old(groups)|] != [] && groups[|old(groups)|][0].start == old(Taken())
      // What is output, or why there is none, is what the stream, the decoder and the queue of absolute positions say.
      ensures Follows(DecodeOf(old(Ready()), size, old(origin), old(tot)), e, outbuf, SourceNow(), origin, old(groups),
                      groups)
    {
      hide Ring;
      hide Rendered;
      hide Lined;
      hide Absolute;
      hide FillOf;
      hide NextOf;
      hide Readable;
      if w == r {
        e := FillToRead();
        if e != None {
          return;
        }
      }
      e := OutputNext();
    }

    /** Output what is there: the bytes before the next block, or the next block filtered. */
    method OutputNext() returns (e: Option<Error>)
      requires Valid() && outbuf == []
      modifies this, win
      ensures e == None ==> Valid() && emitted == old(emitted) + outbuf && old(hist) <= hist && old(queued) <= queued
      ensures win == old(win) && size == old(size) && base == old(base) && (e != None ==> emitted == old(emitted))
      ensures e == None && groups == old(groups) ==>
        old(Taken()) <= Taken() == NextStop() && outbuf == hist[old(Taken())..Taken()]
      ensures e == None && groups != old(groups) ==>
        |groups| == |old(groups)| + 1 && groups[|old(groups)|] != [] && groups[|old(groups)|][0].start == old(Taken())
      ensures Follows(NextOf(old(Ready()), size, old(origin), old(tot)), e, outbuf, SourceNow(), origin, old(groups),
                      groups)
    {
      hide Ring;
      hide Rendered;
      hide Lined;
      hide Absolute;
      hide BlockOf;
      hide Readable;
      if |fl| > 0 {
        LinedFirst();
      }
      if |fl| == 0 {
        PassThrough(w - r);
        return None;
      }
      if fl[0].offset < 0 {
        return Some(InvalidFilter);
      }
      if fl[0].offset > 0 {
        PassThrough(Min(fl[0].offset, w - r));
        return None;
      }
      e := FilterNow();
    }

    /** Output the block at the read position, filtered. */
    method FilterNow() returns (e: Option<Error>)
      requires Valid() && outbuf == [] && |fl| > 0 && fl[0].offset == 0
      modifies this, win
      ensures e == None ==> Valid() && emitted == old(emitted) + outbuf && old(hist) <= hist && old(queued) <= queued
      ensures win == old(win) && size == old(size) && base == old(base) && (e != None ==> emitted == old(emitted))
      ensures e == None ==>
        |groups| == |old(groups)| + 1 && groups[|old(groups)|] != [] && groups[|old(groups)|][0].start == old(Taken())
      ensures |old(Ready()).queue| > 0
      ensures Follows(BlockOf(old(Ready()), size, old(origin), old(tot)), e, outbuf, SourceNow(), origin, old(groups),
                      groups)
    {
      hide Ring;
      hide Window;
      hide Rendered;
      hide Lined;
      hide Render;
      hide Absolute;
      hide BlockOf;
      hide Readable;
      TotalIsOutput();
      var b;
      b, e := ProcessFilters();
      if e != None {
        return;
      }
      Emit(b);
    }

    lemma LinedFirst()
      requires Lined() && |fl| > 0
      ensures |Absolute(fl, origin)| > 0 && Absolute(fl, origin)[0].start == origin + fl[0].offset
    {
      FirstBlock();
    }

    /** A fill between blocks changes nothing that was output. */
    method FillToRead() returns (e: Option<Error>)
      requires Valid() && w == r
      modifies `r, `w, `hist, `fl, `queued, `script, `err, win
      ensures Valid() && old(hist) <= hist && old(queued) <= queued && Taken() == old(Taken())
      ensures e != None ==> w == r
      ensures (e, SourceNow()) == FillOf(old(Ready()), size, origin)
    {
      hide Ring;
      hide Lined;
      hide Play;
      hide Recordings;
      hide Render;
      hide FillOf;
      hide Readable;
      ghost var accepted;
      e, accepted := Fill();
      RenderKept(old(hist), hist, base, Taken(), groups);
    }

    lemma TotalIsOutput()
      requires Window() && Rendered()
      ensures tot == |emitted| && base <= Taken() <= |hist| && Render(hist, base, Taken(), groups) == Some(emitted)
      ensures forall k :: 0 <= k < |groups| ==> Together(groups[k])
    {}

    /** Hand out as much output as there is and fits. */
    method HandOut(p: array<byte>) returns (n: nat)
      requires Valid() && p != win
      modifies `outbuf, p
      ensures Valid() && n == Min(p.Length, |old(outbuf)|) && Delivered() == old(Delivered()) + p[..n]
        && p[..n] == old(outbuf)[..n]
    {
      hide Ring;
      hide Window;
      hide Rendered;
      hide Lined;
      hide Absolute;
      n := Min(p.Length, |outbuf|);
      forall k | 0 <= k < n {
        p[k] := outbuf[k];
      }
      assert p[..n] == outbuf[..n];
      HandOver(emitted, outbuf, n);
      outbuf := outbuf[n..];
    }

    /** Hand out output, making more when there is none. */
    method Read(p: array<byte>) returns (n: nat, e: Option<Error>)
      requires Valid() && p != win
      modifies this, win, p
      ensures e == None ==> Valid() && n <= p.Length && Delivered() == old(Delivered()) + p[..n] && old(hist) <= hist
      ensures e != None ==> n == 0 && emitted == old(emitted) && old(outbuf) == []
      ensures win == old(win) && base == old(base) && size == old(size)
      ensures old(outbuf) != [] ==> e == None && n == Min(|old(outbuf)|, p.Length)
      ensures old(outbuf) == [] ==>
        match DecodeOf(old(Ready()), size, old(origin), old(tot)) {
          case Halted(f) => e == Some(f)
          case Output(out, _, s, origin') =>
            e == None && n == Min(p.Length, |out|) && p[..n] == out[..n] && SourceNow() == s && origin == origin'
        }
    {
      hide Ring;
      hide Window;
      hide Rendered;
      hide Lined;
      hide Absolute;
      hide Valid;
      hide DecodeOf;
      hide Readable;
      ValidOutput();
      if |outbuf| == 0 {
        NoneHeld(emitted);
        e := Decode();
        if e != None {
          return 0, e;
        }
        ValidOutput();
        NewHeld(old(emitted), emitted, outbuf);
      }
      n := HandOut(p);
      e := None;
    }

    lemma ValidOutput()
      requires Valid()
      ensures |outbuf| <= |emitted| && emitted[|emitted| - |outbuf|..] == outbuf
    {}
  }
}

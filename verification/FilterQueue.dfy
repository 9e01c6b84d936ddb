/** The filter queue: where its relative offsets lie in the stream, and what filtering a stream means. */
module FilterQueue {
  import opened Machine

  /** A filter maps a block and the number of bytes output before it to its output, or fails. */
  type Filter = (seq<byte>, nat) -> Option<seq<byte>>

  /** A queued filter: the length of its block, and where the block starts after the one before. */
  datatype FilterBlock = FilterBlock(length: int, offset: int, filter: Filter)

  /** A filter and the part of the stream it is for. */
  datatype Interval = Interval(start: int, length: int, filter: Filter)

  /** The intervals of a queue whose first offset counts from origin. */
  function Absolute(fl: seq<FilterBlock>, origin: int): (s: seq<Interval>)
    ensures |s| == |fl|
  {
    if fl == [] then []
    else
      var start := origin + fl[0].offset;
      [Interval(start, fl[0].length, fl[0].filter)] + Absolute(fl[1..], start)
  }

  lemma AbsoluteFirst(fl: seq<FilterBlock>, origin: int)
    requires fl != []
    ensures var start := origin + fl[0].offset;
      Absolute(fl, origin) == [Interval(start, fl[0].length, fl[0].filter)] + Absolute(fl[1..], start)
  {}

  lemma AbsoluteStarts(fl: seq<FilterBlock>, origin: int)
    ensures fl != [] ==> Absolute(fl, origin)[0].start == origin + fl[0].offset
  {}

  lemma AbsoluteNone(fl: seq<FilterBlock>, origin: int, other: int)
    requires fl == []
    ensures Absolute(fl, origin) == Absolute(fl, other)
  {}

  /** Lengths are not negative, and no block starts before the one queued before it. */
  ghost predicate Orderly(fl: seq<FilterBlock>) {
    && (forall k :: 0 <= k < |fl| ==> fl[k].length >= 0)
    && forall k :: 1 <= k < |fl| ==> fl[k].offset >= 0
  }

  /** Stream positions that never fall. */
  ghost predicate Rising(intervals: seq<Interval>) {
    forall j, k :: 0 <= j <= k < |intervals| ==> intervals[j].start <= intervals[k].start
  }

  /** The absolute positions of an orderly queue never fall, and the last block starts last. */
  lemma {:induction false} OrderlyRises(fl: seq<FilterBlock>, origin: int)
    requires Orderly(fl)
    ensures Rising(Absolute(fl, origin))
    ensures fl != [] ==> Absolute(fl, origin)[|fl| - 1].start == LastStart(fl, origin)
  {
    if fl != [] {
      var start := origin + fl[0].offset;
      OrderlyRises(fl[1..], start);
      var all, rest := Absolute(fl, origin), Absolute(fl[1..], start);
      AbsoluteStarts(fl[1..], start);
      forall j, k | 0 <= j <= k < |all| ensures all[j].start <= all[k].start {
        if j == 0 && k > 0 {
          assert rest[0].start <= rest[k - 1].start;
        } else if j > 0 {
          assert rest[j - 1].start <= rest[k - 1].start;
        }
      }
    }
  }

  lemma {:induction false} AbsoluteLengths(fl: seq<FilterBlock>, origin: int)
    requires Orderly(fl)
    ensures forall k :: 0 <= k < |fl| ==> Absolute(fl, origin)[k].length == fl[k].length >= 0
  {
    if fl != [] {
      AbsoluteLengths(fl[1..], origin + fl[0].offset);
    }
  }

  /** Some block starts after a position exactly when the last one does. */
  lemma StartsAfterLast(fl: seq<FilterBlock>, origin: int, position: int)
    requires Orderly(fl)
    ensures StartsAfter(Absolute(fl, origin), position) <==> fl != [] && LastStart(fl, origin) > position
  {
    hide Absolute;
    hide LastStart;
    OrderlyRises(fl, origin);
    var all := Absolute(fl, origin);
    if StartsAfter(all, position) {
      var k :| 0 <= k < |all| && all[k].start > position;
      assert all[k].start <= all[|fl| - 1].start;
    }
  }

  /** Where the last block of a queue starts. */
  function LastStart(fl: seq<FilterBlock>, origin: int): int {
    if fl == [] then origin else LastStart(fl[1..], origin + fl[0].offset)
  }

  /** Some interval starts after the position. */
  predicate StartsAfter(intervals: seq<Interval>, position: int) {
    exists k :: 0 <= k < |intervals| && intervals[k].start > position
  }

  lemma LastStartNone(origin: int)
    ensures LastStart([], origin) == origin
  {}

  lemma {:induction false} AbsoluteAppend(fl: seq<FilterBlock>, origin: int, f: FilterBlock)
    ensures Absolute(fl + [f], origin)
      == Absolute(fl, origin) + [Interval(LastStart(fl, origin) + f.offset, f.length, f.filter)]
  {
    if fl == [] {
      assert [f][1..] == [];
    } else {
      AbsoluteAppend(fl[1..], origin + fl[0].offset, f);
      assert (fl + [f])[1..] == fl[1..] + [f];
    }
  }

  lemma {:induction false} LastStartSplit(fl: seq<FilterBlock>, origin: int, k: nat)
    requires k < |fl|
    ensures LastStart(fl[..k + 1], origin) == LastStart(fl[..k], origin) + fl[k].offset
  {
    if k == 0 {
      assert fl[..1][1..] == [] && fl[..0] == [];
    } else {
      LastStartSplit(fl[1..], origin + fl[0].offset, k - 1);
      assert fl[..k + 1][1..] == fl[1..][..k] && fl[..k][1..] == fl[1..][..k - 1];
    }
  }

  lemma {:induction false} LastStartIsLast(fl: seq<FilterBlock>, origin: int, k: nat)
    requires k < |fl|
    ensures Absolute(fl, origin)[k].start == LastStart(fl[..k + 1], origin)
  {
    if k == 0 {
      assert fl[..1][1..] == [];
    } else {
      LastStartIsLast(fl[1..], origin + fl[0].offset, k - 1);
      assert fl[..k + 1][1..] == fl[1..][..k];
    }
  }

  /** Moving the origin and the first offset together moves no block. */
  lemma OriginMoved(fl: seq<FilterBlock>, origin: int, step: int)
    requires fl != []
    ensures Absolute(fl[0 := fl[0].(offset := fl[0].offset - step)], origin + step) == Absolute(fl, origin)
  {}

  /** Where a filter asked for at stream position `asked` is recorded: `consumed` bytes of the block being
      filtered were taken already, and the last block starts at `last`. */
  function Recorded(asked: int, consumed: nat, last: int, size: nat): int
    requires size > 0
  {
    last + (asked - consumed - last) % size
  }

  /** A filter that is asked for at or after the start of the last block is taken and recorded where it was asked for
      exactly when no block is part-consumed and it starts less than a window after the block before. */
  lemma RecordedWhereAsked(asked: int, consumed: nat, last: int, size: nat)
    requires size > 0 && last <= asked
    ensures last <= asked - consumed && Recorded(asked, consumed, last, size) == asked <==>
      consumed == 0 && asked - last < size
  {
    var x := asked - last;
    if consumed > 0 {
      if consumed <= x {
        ModAtMost(x - consumed, size);
      }
    } else if x >= size {
      assert (x - consumed) % size < size;
    }
  }

  /** The filters of one start, one after another: each takes the whole output of the one before. */
  function Chain(blocks: seq<Interval>, b: seq<byte>, tot: nat): Option<seq<byte>> {
    if blocks == [] then Some(b)
    else if blocks[0].length != |b| then None
    else
      var out := blocks[0].filter(b, tot);
      if out == None then None else Chain(blocks[1..], out.value, tot)
  }

  lemma {:induction false} ChainAppend(blocks: seq<Interval>, last: Interval, b: seq<byte>, tot: nat)
    ensures Chain(blocks + [last], b, tot) ==
      var before := Chain(blocks, b, tot);
      if before == None then None else if last.length != |before.value| then None else last.filter(before.value, tot)
  {
    if blocks == [] {
      assert [last][1..] == [];
    } else if blocks[0].length == |b| && blocks[0].filter(b, tot).Some? {
      ChainAppend(blocks[1..], last, blocks[0].filter(b, tot).value, tot);
      assert (blocks + [last])[1..] == blocks[1..] + [last];
    }
  }

  lemma {:induction false} ChainSplit(a: seq<Interval>, rest: seq<Interval>, b: seq<byte>, tot: nat)
    ensures Chain(a + rest, b, tot) ==
      var before := Chain(a, b, tot);
      if before == None then None else Chain(rest, before.value, tot)
  {
    if a == [] {
      assert a + rest == rest;
    } else if a[0].length == |b| && a[0].filter(b, tot).Some? {
      ChainSplit(a[1..], rest, a[0].filter(b, tot).value, tot);
      assert (a + rest)[1..] == a[1..] + rest;
    }
  }

  /** The intervals in front that start at the position. */
  function Leading(intervals: seq<Interval>, position: int): (g: seq<Interval>)
    ensures |g| <= |intervals| && g == intervals[..|g|]
  {
    if intervals == [] || intervals[0].start != position then []
    else [intervals[0]] + Leading(intervals[1..], position)
  }

  /** In a queue of intervals, g were applied to input one after another and gave b; rest are still queued. */
  ghost predicate Midway(all: seq<Interval>, g: seq<Interval>, rest: seq<Interval>, position: int,
                         input: seq<byte>, b: seq<byte>, tot: nat)
  {
    && all == g + rest && Chain(g, input, tot) == Some(b) && Leading(all, position) == g + Leading(rest, position)
    && (forall k :: 0 <= k < |g| ==> g[k].start == position)
    && if g == [] then b == input else g[0].length == |input|
  }

  lemma MidwayStart(all: seq<Interval>, position: int, input: seq<byte>, tot: nat)
    ensures Midway(all, [], all, position, input, input, tot)
  {}

  lemma MidwayStep(all: seq<Interval>, g: seq<Interval>, rest: seq<Interval>, position: int,
                   input: seq<byte>, b: seq<byte>, tot: nat)
    requires Midway(all, g, rest, position, input, b, tot) && rest != [] && rest[0].start == position
    requires rest[0].length == |b| && rest[0].filter(b, tot).Some?
    ensures Midway(all, g + [rest[0]], rest[1..], position, input, rest[0].filter(b, tot).value, tot)
  {
    hide Chain;
    ChainAppend(g, rest[0], input, tot);
    assert g + rest == g + [rest[0]] + rest[1..];
    assert g + Leading(rest, position) == g + [rest[0]] + Leading(rest[1..], position);
  }

  lemma MidwayEnd(all: seq<Interval>, g: seq<Interval>, rest: seq<Interval>, position: int,
                  input: seq<byte>, b: seq<byte>, tot: nat)
    requires Midway(all, g, rest, position, input, b, tot) && g != [] && (rest == [] || rest[0].start != position)
    ensures Together(g) && g[0].start == position && g[0].length == |input| && g == Leading(all, position)
    ensures g + rest == all && Chain(g, input, tot) == Some(b)
  {}

  /** The bytes of the stream from base to upto with groups of filters, in order, each applied to its interval. */
  function Render(stream: seq<byte>, base: nat, upto: nat, groups: seq<seq<Interval>>): (r: Option<seq<byte>>)
    requires base <= upto <= |stream|
    decreases |groups|
  {
    if groups == [] then Some(stream[base..upto])
    else
      var g := groups[|groups| - 1];
      if g == [] || g[0].length < 0 || g[0].start < base || g[0].start + g[0].length > upto then None
      else
        var start, end := g[0].start, g[0].start + g[0].length;
        var before := Render(stream, base, start, groups[..|groups| - 1]);
        if before == None then None
        else
          var out := Chain(g, stream[start..end], |before.value|);
          if out == None then None else Some(before.value + out.value + stream[end..upto])
  }

  /** Bytes that follow all groups pass through. */
  lemma {:induction false} RenderMore(stream: seq<byte>, base: nat, upto: nat, more: nat, groups: seq<seq<Interval>>)
    requires base <= upto <= more <= |stream| && Render(stream, base, upto, groups).Some?
    ensures Render(stream, base, more, groups) == Some(Render(stream, base, upto, groups).value + stream[upto..more])
  {
    if groups == [] {
      assert stream[base..more] == stream[base..upto] + stream[upto..more];
    } else {
      var g := groups[|groups| - 1];
      var end := g[0].start + g[0].length;
      var before := Render(stream, base, g[0].start, groups[..|groups| - 1]).value;
      var out := Chain(g, stream[g[0].start..end], |before|).value;
      assert stream[end..more] == stream[end..upto] + stream[upto..more];
      assert before + out + stream[end..more] == before + out + stream[end..upto] + stream[upto..more];
    }
  }

  lemma SliceKept(s: seq<byte>, longer: seq<byte>, a: nat, b: nat)
    requires a <= b <= |s| && s <= longer
    ensures longer[a..b] == s[a..b]
  {}

  /** What follows does not change what was filtered. */
  lemma {:induction false} RenderKept(stream: seq<byte>, longer: seq<byte>, base: nat, upto: nat,
                                      groups: seq<seq<Interval>>)
    requires base <= upto <= |stream| && stream <= longer
    ensures Render(longer, base, upto, groups) == Render(stream, base, upto, groups)
    decreases |groups|
  {
    if groups == [] {
      SliceKept(stream, longer, base, upto);
    } else {
      var g := groups[|groups| - 1];
      if g != [] && g[0].length >= 0 && base <= g[0].start && g[0].start + g[0].length <= upto {
        RenderKept(stream, longer, base, g[0].start, groups[..|groups| - 1]);
        var start, end := g[0].start, g[0].start + g[0].length;
        SliceKept(stream, longer, start, end);
        SliceKept(stream, longer, end, upto);
      }
    }
  }

  /** A group that starts where the last output ended adds its chain's output. */
  lemma RenderGroup(stream: seq<byte>, base: nat, start: nat, groups: seq<seq<Interval>>, g: seq<Interval>)
    requires base <= start <= |stream| && Render(stream, base, start, groups).Some?
    requires g != [] && g[0].start == start && 0 <= g[0].length && start + g[0].length <= |stream|
    ensures var before := Render(stream, base, start, groups).value;
      var end := start + g[0].length;
      var out := Chain(g, stream[start..end], |before|);
      Render(stream, base, end, groups + [g]) == if out == None then None else Some(before + out.value)
  {
    assert (groups + [g])[..|groups|] == groups;
    var end := start + g[0].length;
    assert stream[end..end] == [];
    forall s: seq<byte> ensures s + stream[end..end] == s {}
  }

  ghost predicate KeepsLength(f: Filter) {
    forall b: seq<byte>, tot: nat :: f(b, tot).Some? ==> |f(b, tot).value| == |b|
  }

  lemma {:induction false} ChainKeepsLength(blocks: seq<Interval>, b: seq<byte>, tot: nat)
    requires (forall k :: 0 <= k < |blocks| ==> KeepsLength(blocks[k].filter)) && Chain(blocks, b, tot).Some?
    ensures |Chain(blocks, b, tot).value| == |b|
  {
    if blocks != [] {
      ChainKeepsLength(blocks[1..], blocks[0].filter(b, tot).value, tot);
    }
  }

  /** The position lies in no interval of the groups. */
  ghost predicate Outside(groups: seq<seq<Interval>>, p: int) {
    forall k :: 0 <= k < |groups| && groups[k] != [] ==>
      !(groups[k][0].start <= p < groups[k][0].start + groups[k][0].length)
  }

  /** With filters that keep lengths, a byte outside all intervals is output unchanged in its place. */
  lemma {:induction false} RenderOutside(stream: seq<byte>, base: nat, upto: nat, groups: seq<seq<Interval>>, p: nat)
    requires base <= p < upto <= |stream| && Outside(groups, p)
    requires forall k, j :: 0 <= k < |groups| && 0 <= j < |groups[k]| ==> KeepsLength(groups[k][j].filter)
    requires Render(stream, base, upto, groups).Some?
    ensures var out := Render(stream, base, upto, groups).value;
      |out| == upto - base && out[p - base] == stream[p]
    decreases |groups|
  {
    if groups != [] {
      var g, rest := groups[|groups| - 1], groups[..|groups| - 1];
      var start, end := g[0].start, g[0].start + g[0].length;
      var before := Render(stream, base, start, rest).value;
      ChainKeepsLength(g, stream[start..end], |before|);
      RenderLength(stream, base, start, rest);
      if p < start {
        assert forall k :: 0 <= k < |rest| ==> rest[k] == groups[k];
        RenderOutside(stream, base, start, rest, p);
      }
    }
  }

  lemma {:induction false} RenderLength(stream: seq<byte>, base: nat, upto: nat, groups: seq<seq<Interval>>)
    requires base <= upto <= |stream|
    requires forall k, j :: 0 <= k < |groups| && 0 <= j < |groups[k]| ==> KeepsLength(groups[k][j].filter)
    requires Render(stream, base, upto, groups).Some?
    ensures |Render(stream, base, upto, groups).value| == upto - base
    decreases |groups|
  {
    if groups != [] {
      var g, rest := groups[|groups| - 1], groups[..|groups| - 1];
      var start, end := g[0].start, g[0].start + g[0].length;
      RenderLength(stream, base, start, rest);
      ChainKeepsLength(g, stream[start..end], |Render(stream, base, start, rest).value|);
    }
  }

  /** All filters of the groups, in order. */
  function Flatten(groups: seq<seq<Interval>>): seq<Interval>
    decreases |groups|
  {
    if groups == [] then [] else Flatten(groups[..|groups| - 1]) + groups[|groups| - 1]
  }

  lemma FlattenAppend(groups: seq<seq<Interval>>, g: seq<Interval>)
    ensures Flatten(groups + [g]) == Flatten(groups) + g
  {
    assert (groups + [g])[..|groups|] == groups;
  }

  /** The filters of a group share its start. */
  ghost predicate Together(g: seq<Interval>) {
    g != [] && forall k :: 0 <= k < |g| ==> g[k].start == g[0].start
  }

  lemma TogetherSome(g: seq<Interval>)
    requires Together(g)
    ensures g != []
  {}

  lemma FlattenNone(queued: seq<Interval>)
    ensures Flatten([]) + queued == queued
  {}

  lemma RenderNone(stream: seq<byte>, base: nat)
    requires base <= |stream|
    ensures Render(stream, base, base, []) == Some([])
  {
    assert stream[base..base] == [];
  }
}

/** The predictive filters: delta, RGB and audio. */
module PredictiveFilters {
  import opened Machine
  import opened Predictive

  function Abs(x: int): nat { if x < 0 then -x else x }

  /** Each byte is predicted to be the one before it in its channel. */
  function DeltaPredictor(n: nat): Predictor {
    (pos, res, past) => if n <= pos < |res| + n then res[pos - n] else 0
  }

  /** Rebuild n channels of differences. */
  method FilterDelta(n: int, buf: seq<byte>) returns (res: array<byte>)
    ensures fresh(res) && res.Length == |buf|
    ensures n >= 1 ==> res[..] == Filtered(DeltaPredictor(n), n, buf, Zeros(|buf|))
    ensures n <= 0 ==> res[..] == Zeros(|buf|)
  {
    hide Pending;
    hide Filtered;
    res := new byte[|buf|](_ => 0);
    assert res[..] == Zeros(|buf|);
    if n <= 0 {
      return;
    }
    ghost var p, all := DeltaPredictor(n), Filtered(DeltaPredictor(n), n, buf, Zeros(|buf|));
    PendingStart(p, n, buf, res[..]);
    var i := 0;
    for j := 0 to n
      invariant 0 <= i && Pending(p, n, j, j, buf, i, res[..], all)
    {
      var c: byte := 0;
      var k := j;
      while k < res.Length
        invariant 0 <= i && Pending(p, n, j, k, buf, i, res[..], all)
        invariant (k == j && c == 0) || (n <= k < res.Length + n && c == res[k - n])
      {
        PendingByte(p, n, j, k, buf, i, res[..], all);
        c := Wrap8(c as int - buf[i]);
        i := i + 1;
        ghost var before := res[..];
        res[k] := c;
        assert res[..] == before[k := c];
        k := k + n;
      }
      PendingChannel(p, n, j, k, buf, i, res[..], all);
    }
    PendingEnd(p, n, buf, i, res[..], all);
  }

  /** Of the left, upper and upper-left bytes, the one nearest to left + upper - upperLeft; on a tie the first of
      them. */
  function Nearest(left: int, upper: int, upperLeft: int): (r: int)
    ensures r == left || r == upper || r == upperLeft
    ensures var target := left + upper - upperLeft;
      Abs(target - r) <= Abs(target - left) && Abs(target - r) <= Abs(target - upper)
      && Abs(target - r) <= Abs(target - upperLeft)
    ensures var target := left + upper - upperLeft;
      && (r != left ==> Abs(target - r) < Abs(target - left))
      && (r != left && r != upper ==> Abs(target - r) < Abs(target - upper))
  {
    var target := left + upper - upperLeft;
    var pa, pb, pc := Abs(target - left), Abs(target - upper), Abs(target - upperLeft);
    if pa <= pb && pa <= pc then left else if pb <= pc then upper else upperLeft
  }

  /** A byte of a picture is predicted from its left, upper and upper-left neighbours of the same colour. */
  function RgbPredictor(width: nat): Predictor {
    (pos, res, past) =>
      var left: int := if 3 <= pos < |res| + 3 then res[pos - 3] else 0;
      if pos >= width + 3 && pos < |res| then Nearest(left, res[pos - width], res[pos - width - 3]) else left
  }

  /** Add the green byte to the two around it, in each pixel. */
  function AddGreen(s: seq<byte>): (r: seq<byte>)
    ensures |r| == |s|
  {
    if |s| < 3 then s
    else [Wrap8(s[0] as int + s[1]), s[1], Wrap8(s[2] as int + s[1])] + AddGreen(s[3..])
  }

  function SubGreen(s: seq<byte>): (r: seq<byte>)
    ensures |r| == |s|
  {
    if |s| < 3 then s
    else [Wrap8(s[0] as int - s[1]), s[1], Wrap8(s[2] as int - s[1])] + SubGreen(s[3..])
  }

  lemma WrapBack(a: byte, b: byte)
    ensures Wrap8(Wrap8(a as int - b) as int + b) == a && Wrap8(Wrap8(a as int + b) as int - b) == a
  {
    assert Wrap8(a as int - b) == if a >= b then a - b else a - b + 0x100;
    assert Wrap8(a as int + b) == if a + b < 0x100 then a + b else a + b - 0x100;
  }

  lemma {:induction false} GreenAddedBack(s: seq<byte>)
    ensures AddGreen(SubGreen(s)) == s
  {
    hide Wrap8;
    if |s| >= 3 {
      WrapBack(s[0], s[1]);
      WrapBack(s[2], s[1]);
      GreenAddedBack(s[3..]);
      assert SubGreen(s)[3..] == SubGreen(s[3..]);
      assert s == [s[0], s[1], s[2]] + s[3..];
    }
  }

  lemma {:induction false} GreenSubtractedBack(s: seq<byte>)
    ensures SubGreen(AddGreen(s)) == s
  {
    hide Wrap8;
    if |s| >= 3 {
      WrapBack(s[0], s[1]);
      WrapBack(s[2], s[1]);
      GreenSubtractedBack(s[3..]);
      assert AddGreen(s)[3..] == AddGreen(s[3..]);
      assert s == [s[0], s[1], s[2]] + s[3..];
    }
  }

  /** From place `from` on. */
  function GreenFrom(s: seq<byte>, from: nat): (r: seq<byte>)
    ensures |r| == |s|
  {
    if from <= |s| then s[..from] + AddGreen(s[from..]) else s
  }

  function UngreenFrom(s: seq<byte>, from: nat): (r: seq<byte>)
    ensures |r| == |s|
  {
    if from <= |s| then s[..from] + SubGreen(s[from..]) else s
  }

  lemma GreenFromBack(s: seq<byte>, from: nat)
    ensures GreenFrom(UngreenFrom(s, from), from) == s && UngreenFrom(GreenFrom(s, from), from) == s
  {
    hide AddGreen;
    hide SubGreen;
    if from <= |s| {
      GreenAddedBack(s[from..]);
      GreenSubtractedBack(s[from..]);
      assert UngreenFrom(s, from)[from..] == SubGreen(s[from..]) && UngreenFrom(s, from)[..from] == s[..from];
      assert GreenFrom(s, from)[from..] == AddGreen(s[from..]) && GreenFrom(s, from)[..from] == s[..from];
    }
  }

  /** In each pixel from `from` on, green is added to the colours before and after it. */
  lemma {:induction false} GreenAdded(s: seq<byte>, from: nat, k: nat)
    requires from + 3 * k + 2 < |s|
    ensures var r, at := GreenFrom(s, from), from + 3 * k;
      && r[at] == Wrap8(s[at] as int + s[at + 1]) && r[at + 1] == s[at + 1]
      && r[at + 2] == Wrap8(s[at + 2] as int + s[at + 1])
    decreases k
  {
    hide Wrap8;
    hide AddGreen;
    AddGreenFirst(s[from..]);
    if k > 0 {
      assert s[from..][3..] == s[from + 3..];
      GreenAdded(s, from + 3, k - 1);
    }
  }

  /** The bytes before `from`, and the one or two after the last whole pixel, stay as they are. */
  lemma {:induction false} GreenKept(s: seq<byte>, from: nat, at: nat)
    requires at < |s| && (at < from || (at - from) / 3 * 3 + 2 >= |s| - from)
    ensures GreenFrom(s, from)[at] == s[at]
    decreases |s| - from
  {
    hide Wrap8;
    hide AddGreen;
    if at >= from && from + 3 <= |s| {
      AddGreenFirst(s[from..]);
      assert s[from..][3..] == s[from + 3..];
      GreenKept(s, from + 3, at);
    } else if at >= from {
      GreenEnd(s, from);
    }
  }

  /** One more pixel. */
  lemma GreenStep(s: seq<byte>, i: nat)
    requires i + 2 < |s|
    ensures var s' := s[i := Wrap8(s[i] as int + s[i + 1])][i + 2 := Wrap8(s[i + 2] as int + s[i + 1])];
      GreenFrom(s, i) == GreenFrom(s', i + 3)
  {
    hide AddGreen;
    hide Wrap8;
    var s' := s[i := Wrap8(s[i] as int + s[i + 1])][i + 2 := Wrap8(s[i + 2] as int + s[i + 1])];
    AddGreenFirst(s[i..]);
    assert s'[i + 3..] == s[i + 3..] == s[i..][3..];
    assert s'[..i + 3] == s[..i] + [s'[i], s'[i + 1], s'[i + 2]];
  }

  lemma AddGreenFirst(s: seq<byte>)
    requires |s| >= 3
    ensures AddGreen(s) == [Wrap8(s[0] as int + s[1]), s[1], Wrap8(s[2] as int + s[1])] + AddGreen(s[3..])
  {}

  lemma GreenEnd(s: seq<byte>, i: nat)
    requires i >= |s| - 2
    ensures GreenFrom(s, i) == s
  {}

  /** Add the green bytes in place. */
  method AddGreenFrom(res: array<byte>, posR: nat)
    modifies res
    ensures res[..] == GreenFrom(old(res[..]), posR)
  {
    hide AddGreen;
    hide Wrap8;
    hide GreenFrom;
    var i: nat := posR;
    while i < res.Length - 2
      invariant i >= posR && GreenFrom(res[..], i) == GreenFrom(old(res[..]), posR)
      decreases res.Length - i
    {
      GreenStep(res[..], i);
      ghost var before := res[..];
      var c := res[i + 1];
      res[i] := Wrap8(res[i] as int + c);
      res[i + 2] := Wrap8(res[i + 2] as int + c);
      assert res[..] == before[i := Wrap8(before[i] as int + c)][i + 2 := Wrap8(before[i + 2] as int + c)];
      i := i + 3;
    }
    GreenEnd(res[..], i);
  }

  /** The width the filter uses: its register less 3, in 32 bits. */
  function RgbWidth(r0: uint32): nat { Wrap32(r0 as int - 3) }

  ghost function Rgb(r0: uint32, posR: nat, buf: seq<byte>): seq<byte> {
    GreenFrom(Filtered(RgbPredictor(RgbWidth(r0)), 3, buf, Zeros(|buf|)), posR)
  }

  /** Rebuild a picture, the three colours one after another. */
  method FilterRgb(r0: uint32, posR: uint32, buf: seq<byte>) returns (res: array<byte>)
    ensures fresh(res) && res.Length == |buf| && res[..] == Rgb(r0, posR, buf)
  {
    hide Pending;
    hide Filtered;
    hide AddGreen;
    var width := RgbWidth(r0);
    res := new byte[|buf|](_ => 0);
    assert res[..] == Zeros(|buf|);
    ghost var p, all := RgbPredictor(width), Filtered(RgbPredictor(width), 3, buf, Zeros(|buf|));
    PendingStart(p, 3, buf, res[..]);
    var next := 0;
    for c := 0 to 3
      invariant 0 <= next && Pending(p, 3, c, c, buf, next, res[..], all)
    {
      var prevByte := 0;
      var i := c;
      while i < res.Length
        invariant 0 <= next && Pending(p, 3, c, i, buf, next, res[..], all)
        invariant (i == c && prevByte == 0) || (3 <= i < res.Length + 3 && prevByte == res[i - 3])
      {
        PendingByte(p, 3, c, i, buf, next, res[..], all);
        var predicted := prevByte;
        var upperPos := i - width;
        if upperPos >= 3 {
          predicted := Nearest(prevByte, res[upperPos], res[upperPos - 3]);
        }
        prevByte := Wrap8(predicted - buf[next]);
        next := next + 1;
        ghost var before := res[..];
        res[i] := prevByte;
        assert res[..] == before[i := prevByte];
        i := i + 3;
      }
      PendingChannel(p, 3, c, i, buf, next, res[..], all);
    }
    PendingEnd(p, 3, buf, next, res[..], all);
    AddGreenFrom(res, posR);
  }

  /** Every picture is the filter's result on some input, and no two inputs give the same one. */
  lemma RgbInverts(r0: uint32, posR: nat, data: seq<byte>)
    ensures var p, zeros := RgbPredictor(RgbWidth(r0)), Zeros(|data|);
      && Rgb(r0, posR, Unfiltered(p, 3, UngreenFrom(data, posR), zeros)) == data
      && Unfiltered(p, 3, UngreenFrom(Rgb(r0, posR, data), posR), zeros) == data
  {
    hide Filtered;
    hide Unfiltered;
    hide GreenFrom;
    hide UngreenFrom;
    var p, zeros := RgbPredictor(RgbWidth(r0)), Zeros(|data|);
    GreenFromBack(data, posR);
    Inverses(p, 3, UngreenFrom(data, posR), zeros);
    Inverses(p, 3, data, zeros);
    GreenFromBack(Filtered(p, 3, data, zeros), posR);
  }

  lemma EarlierPlace(pos: nat, n: nat, back: nat)
    requires n >= 1 && 1 <= back && back % n == 0 && back <= pos
    ensures (pos - back) % n == pos % n
  {
    var q, r, t := pos / n, pos % n, back / n;
    assert pos == q * n + r && back == t * n;
    assert pos - back == (q - t) * n + r;
    DivModUnique(pos - back, q - t, n, r);
  }

  lemma DeltaLooksBack(n: nat)
    requires n >= 1
    ensures LooksBack(DeltaPredictor(n), n)
  {
    forall pos: nat, a: seq<byte>, b: seq<byte>, past: seq<byte> |
      |a| == |b| && pos < |a| && AgreeBefore(a, b, n, pos % n, pos)
      ensures DeltaPredictor(n)(pos, a, past) == DeltaPredictor(n)(pos, b, past)
    {
      if n <= pos {
        assert n % n == 0;
        EarlierPlace(pos, n, n);
        assert a[pos - n] == b[pos - n];
      }
    }
  }

  /** With whole pixels to a line, the picture filter looks only at what it has filled in. */
  lemma RgbLooksBack(width: nat)
    requires width % 3 == 0 && width > 0
    ensures LooksBack(RgbPredictor(width), 3)
  {
    forall pos: nat, a: seq<byte>, b: seq<byte>, past: seq<byte> |
      |a| == |b| && pos < |a| && AgreeBefore(a, b, 3, pos % 3, pos)
      ensures RgbPredictor(width)(pos, a, past) == RgbPredictor(width)(pos, b, past)
    {
      if 3 <= pos {
        assert a[pos - 3] == b[pos - 3];
        if width + 3 <= pos {
          assert a[pos - width] == b[pos - width] && a[pos - width - 3] == b[pos - width - 3];
        }
      }
    }
  }

  /** A place above another one that is not filled yet when the width is not whole pixels, and the place below it. */
  function Above(width: nat): nat { if width == 0 then 3 else 6 - width % 3 }

  function BelowIt(width: nat): nat { Above(width) + width }

  /** Memory of zeros but for one byte, just large enough for the place below. */
  function Marked(width: nat, mark: byte): (mem: seq<byte>)
    ensures |mem| == BelowIt(width) + 1
    ensures forall k :: 0 <= k < |mem| ==> mem[k] == if k == Above(width) then mark else 0
  {
    Zeros(BelowIt(width) + 1)[Above(width) := mark]
  }

  lemma MarkPlaces(width: nat)
    requires width == 0 || width % 3 != 0
    ensures var u, pos := Above(width), BelowIt(width);
      3 <= u <= pos && pos % 3 == 0 && pos >= width + 3 && (width > 0 ==> u % 3 != 0)
  {
    if width > 0 {
      var q, r := width / 3, width % 3;
      assert BelowIt(width) == 3 * (q + 2);
    }
  }

  /** Up to the marked place everything is predicted to be zero, and there it is the mark. */
  lemma MarkSeen(width: nat, mark: byte, at: nat, past: seq<byte>)
    requires (width == 0 || width % 3 != 0) && at % 3 == 0 && at <= BelowIt(width)
    ensures RgbPredictor(width)(at, Marked(width, mark), past) == if at == BelowIt(width) then mark as int else 0
  {
    hide Nearest;
    MarkPlaces(width);
    NearestOfOne(mark);
  }

  lemma NearestOfOne(mark: byte)
    ensures Nearest(0, mark as int, 0) == mark as int && Nearest(0, 0, 0) == 0
  {}

  /** Filtering zeros leaves the memory as it was up to the marked place, and puts the mark there. */
  lemma {:induction false} MarkDecoded(width: nat, mark: byte, at: nat, input: seq<byte>, past: seq<byte>)
    requires (width == 0 || width % 3 != 0) && at % 3 == 0 && at <= BelowIt(width)
    requires |input| == |Channels(3, BelowIt(width) + 1, 0, at)| && forall k :: 0 <= k < |input| ==> input[k] == 0
    ensures Decode(RgbPredictor(width), Channels(3, BelowIt(width) + 1, 0, at), input, Marked(width, mark),
                   past)[BelowIt(width)] == mark
    decreases BelowIt(width) - at
  {
    hide RgbPredictor;
    var p, mem, pos := RgbPredictor(width), Marked(width, mark), BelowIt(width);
    var order := Channels(3, pos + 1, 0, at);
    MarkPlaces(width);
    MarkSeen(width, mark, at, past);
    assert order == [at] + Channels(3, pos + 1, 0, at + 3);
    assert order[1..] == Channels(3, pos + 1, 0, at + 3);
    if at < pos {
      if at == Above(width) { assert false; }
      assert mem[at := 0] == mem;
      MarkDecoded(width, mark, at + 3, input[1..], past + [input[0]]);
    } else {
      NotAgain(pos);
      DecodeKeeps(p, order[1..], input[1..], mem[pos := mark], past + [input[0]], pos);
    }
  }

  /** The first channel's last place is in no other channel. */
  lemma NotAgain(pos: nat)
    requires pos % 3 == 0
    ensures pos !in Channels(3, pos + 1, 0, pos + 3)
  {
    ChannelsHold(3, pos + 1, 0, pos + 3, pos);
  }

  /** The picture filter looks only at what it has filled in exactly when there are whole pixels to a line. */
  lemma RgbLooksAhead(width: nat)
    ensures LooksBack(RgbPredictor(width), 3) <==> width > 0 && width % 3 == 0
  {
    if width > 0 && width % 3 == 0 {
      RgbLooksBack(width);
    } else if LooksBack(RgbPredictor(width), 3) {
      RgbMemoryMatters(width);
      var a, b := Marked(width, 0), Marked(width, 9);
      MemoryIrrelevant(RgbPredictor(width), 3, Zeros(|a|), a, b);
      assert false;
    }
  }

  /** Otherwise its result depends on what the memory for it held before. */
  lemma RgbMemoryMatters(width: nat)
    requires width == 0 || width % 3 != 0
    ensures var a, b := Marked(width, 0), Marked(width, 9);
      Filtered(RgbPredictor(width), 3, Zeros(|a|), a) != Filtered(RgbPredictor(width), 3, Zeros(|a|), b)
  {
    hide RgbPredictor;
    var n := BelowIt(width) + 1;
    InterleavedIsPermutation(3, n);
    MarkDecoded(width, 0, 0, Zeros(n), []);
    MarkDecoded(width, 9, 0, Zeros(n), []);
  }

  /** The filter's result does not depend on what the memory for it held before exactly when there are whole pixels to a
      line. */
  lemma RgbMemory(width: nat)
    ensures (forall input: seq<byte>, a: seq<byte>, b: seq<byte> :: |a| == |b| == |input| ==>
        Filtered(RgbPredictor(width), 3, input, a) == Filtered(RgbPredictor(width), 3, input, b))
      <==> width > 0 && width % 3 == 0
  {
    hide RgbPredictor;
    hide Filtered;
    if width > 0 && width % 3 == 0 {
      RgbLooksBack(width);
      forall input: seq<byte>, a: seq<byte>, b: seq<byte> | |a| == |b| == |input|
        ensures Filtered(RgbPredictor(width), 3, input, a) == Filtered(RgbPredictor(width), 3, input, b)
      {
        MemoryIrrelevant(RgbPredictor(width), 3, input, a, b);
      }
    } else {
      RgbMemoryMatters(width);
    }
  }
}

/** The sliding window as a ring over the history of all bytes written to it. */
module LzWindow {
  import opened Machine

  /** The bytes of hist last written, in a ring whose next place is w: before w the latest, from w on those of the lap
      before. */
  ghost predicate Ring(win: seq<byte>, w: nat, hist: seq<byte>) {
    && w <= |win| <= |hist|
    && (forall i :: 0 <= i < w ==> win[i] == hist[|hist| - w + i])
    && forall i :: w <= i < |win| ==> win[i] == hist[|hist| - w - |win| + i]
  }

  /** x brought into the range of a window's indices, from below zero as well. */
  function Mod(x: int, size: nat): (r: nat)
    requires size > 0
    ensures r < size
  {
    x % size
  }

  /** The distance that an offset means in a window of this size: no distance at all is a whole lap. */
  function Distance(offset: int, size: nat): (d: nat)
    requires size > 0
    ensures 1 <= d <= size
  {
    if Mod(offset, size) == 0 then size else Mod(offset, size)
  }

  /** The LZ77 copy: n times, append the byte found d back. */
  function Repeat(hist: seq<byte>, d: nat, n: nat): (r: seq<byte>)
    requires 1 <= d <= |hist|
    ensures |r| == |hist| + n && r[..|hist|] == hist
    decreases n
  {
    if n == 0 then hist else Repeat(hist + [hist[|hist| - d]], d, n - 1)
  }

  /** Every byte of a copy is the one d before it. */
  lemma {:induction false} RepeatAt(hist: seq<byte>, d: nat, n: nat, j: nat)
    requires 1 <= d <= |hist| && |hist| <= j < |hist| + n
    ensures Repeat(hist, d, n)[j] == Repeat(hist, d, n)[j - d]
    decreases n
  {
    var next := hist + [hist[|hist| - d]];
    if j > |hist| {
      RepeatAt(next, d, n - 1, j);
    } else {
      assert Repeat(hist, d, n)[..|next|] == next;
      assert next[j] == next[j - d];
    }
  }

  lemma {:induction false} RepeatTwice(hist: seq<byte>, d: nat, m: nat, n: nat)
    requires 1 <= d <= |hist|
    ensures Repeat(Repeat(hist, d, m), d, n) == Repeat(hist, d, m + n)
    decreases m
  {
    if m > 0 {
      RepeatTwice(hist + [hist[|hist| - d]], d, m - 1, n);
    }
  }

  lemma RepeatNone(hist: seq<byte>, d: nat)
    requires 1 <= d <= |hist|
    ensures Repeat(hist, d, 0) == hist
  {}

  lemma RepeatNext(hist: seq<byte>, d: nat, n: nat)
    requires 1 <= d <= |hist|
    ensures var r := Repeat(hist, d, n); Repeat(hist, d, n + 1) == r + [r[|r| - d]]
  {
    RepeatTwice(hist, d, n, 1);
    var r := Repeat(hist, d, n);
    assert Repeat(r, d, 1) == r + [r[|r| - d]];
  }

  /** A copy no longer than its distance appends a piece of the history. */
  lemma {:induction false} RepeatShort(hist: seq<byte>, d: nat, n: nat)
    requires n <= d <= |hist| && 1 <= d
    ensures Repeat(hist, d, n) == hist + hist[|hist| - d..|hist| - d + n]
  {
    hide Repeat;
    if n == 0 {
      RepeatNone(hist, d);
    } else {
      RepeatShort(hist, d, n - 1);
      RepeatNext(hist, d, n - 1);
      PieceGrows(hist, |hist| - d, n - 1);
    }
  }

  lemma PieceGrows(hist: seq<byte>, a: nat, n: nat)
    requires a + n < |hist|
    ensures hist + hist[a..a + n] + [hist[a + n]] == hist + hist[a..a + n + 1]
    ensures (hist + hist[a..a + n])[a + n] == hist[a + n]
  {}

  /** Where the byte at distance d of the next place is. */
  lemma RingSource(win: seq<byte>, w: nat, hist: seq<byte>, d: nat, i: nat)
    requires Ring(win, w, hist) && 1 <= d <= |win|
    requires i < |win| && (i == w - d || i == w - d + |win|)
    ensures win[i] == hist[|hist| - d]
  {}

  lemma RingPiece(win: seq<byte>, w: nat, hist: seq<byte>, d: nat, i: nat, n: nat)
    requires Ring(win, w, hist) && n <= d <= |win| && i + n <= |win| && (i == w - d || i == w - d + |win|)
    ensures win[i..i + n] == hist[|hist| - d..|hist| - d + n]
  {}

  /** Copying a piece of the ring that ends before the copy begins. */
  lemma RepeatPiece(win: seq<byte>, w: nat, hist: seq<byte>, d: nat, i: nat, n: nat)
    requires Ring(win, w, hist) && n <= d <= |win| && 1 <= d && i + n <= |win| && (i == w - d || i == w - d + |win|)
    ensures Repeat(hist, d, n) == hist + win[i..i + n]
  {
    RingPiece(win, w, hist, d, i, n);
    RepeatShort(hist, d, n);
  }

  /** Going back a distance, in the ring. */
  lemma SourcePlace(w: nat, offset: int, size: nat)
    requires 0 < size && w <= size
    ensures var i, d := Mod(w - offset, size), Distance(offset, size);
      (i == w - d || i == w - d + size)
  {
    var q, m := offset / size, offset % size;
    var d := Distance(offset, size);
    Parts(offset, size);
    var i := if d <= w then w - d else w - d + size;
    var laps := if d <= w then -q else -q - 1;
    if m == 0 {
      laps := laps + 1;
    }
    Lapped(w - offset, laps, size, i, q, m, w);
    DivModUnique(w - offset, laps, size, i);
  }

  lemma Parts(x: int, m: nat)
    requires m > 0
    ensures x == (x / m) * m + x % m
  {}

  lemma Lapped(x: int, laps: int, size: nat, i: int, q: int, m: int, w: int)
    requires x == w - (q * size + m)
    requires (laps == -q && i == w - m) || (laps == -q - 1 && i == w - m + size)
      || (m == 0 && laps == -q + 1 && i == w - size)
    ensures x == laps * size + i
  {
    if laps == -q {
      assert -q * size == -(q * size);
    } else if laps == -q - 1 {
      assert (-q - 1) * size == -(q * size) - size;
    } else {
      assert (-q + 1) * size == -(q * size) + size;
    }
  }

  lemma RingWrite(win: seq<byte>, w: nat, hist: seq<byte>, c: byte)
    requires Ring(win, w, hist) && w < |win|
    ensures Ring(win[w := c], w + 1, hist + [c])
  {}

  /** Writing several bytes at once. */
  lemma RingWriteAll(win: seq<byte>, win': seq<byte>, w: nat, hist: seq<byte>, piece: seq<byte>)
    requires Ring(win, w, hist) && w + |piece| <= |win| == |win'|
    requires forall k :: 0 <= k < |win| ==> win'[k] == if w <= k < w + |piece| then piece[k - w] else win[k]
    ensures Ring(win', w + |piece|, hist + piece)
  {}

  lemma RingWrap(win: seq<byte>, hist: seq<byte>)
    requires Ring(win, |win|, hist)
    ensures Ring(win, 0, hist)
  {}

  function LastPart(hist: seq<byte>, n: nat): seq<byte>
    requires n <= |hist|
  {
    hist[|hist| - n..]
  }

  /** What a ring says of the last |win| bytes of the history. */
  function Unrolled(win: seq<byte>, w: nat): seq<byte>
    requires w <= |win|
  {
    win[w..] + win[..w]
  }

  lemma UnrolledIsLast(win: seq<byte>, w: nat, hist: seq<byte>)
    requires Ring(win, w, hist)
    ensures Unrolled(win, w) == LastPart(hist, |win|)
  {}

  lemma ZerosRing(win: seq<byte>)
    requires forall i :: 0 <= i < |win| ==> win[i] == 0
    ensures Ring(win, 0, Zeros(|win|))
  {}

  /** A larger window that begins with an unrolled one. */
  lemma UnrolledRing(win: seq<byte>, kept: seq<byte>)
    requires |kept| <= |win| && forall i :: 0 <= i < |win| ==> win[i] == if i < |kept| then kept[i] else 0
    ensures Ring(win, |kept|, Zeros(|win| - |kept|) + kept)
  {}

  lemma UnrolledAt(win: seq<byte>, w: nat)
    requires w <= |win|
    ensures |Unrolled(win, w)| == |win|
    ensures forall i :: 0 <= i < |win| ==>
      Unrolled(win, w)[i] == if i < |win| - w then win[w + i] else win[i - (|win| - w)]
  {}

  lemma TailIs(a: seq<byte>, b: seq<byte>)
    ensures LastPart(a + b, |b|) == b
  {}

  lemma LastAll(s: seq<byte>)
    ensures LastPart(s, |s|) == s
  {}
}

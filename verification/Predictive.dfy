/** Filters that rebuild bytes one at a time, each as a prediction less an input byte: one encoder undoes them all. */
module Predictive {
  import opened Machine

  /** What a byte at a place is predicted to be, from the result so far and the inputs so far. */
  type Predictor = (nat, seq<byte>, seq<byte>) -> int

  /** Places below a length. */
  ghost predicate Within(order: seq<nat>, length: nat) {
    forall k :: 0 <= k < |order| ==> order[k] < length
  }

  ghost predicate Distinct(order: seq<nat>) {
    forall j, k :: 0 <= j < k < |order| ==> order[j] != order[k]
  }

  /** Fill the places of res in the given order. */
  function Decode(p: Predictor, order: seq<nat>, input: seq<byte>, res: seq<byte>, past: seq<byte>): (r: seq<byte>)
    requires |input| == |order| && Within(order, |res|)
    ensures |r| == |res|
    decreases |order|
  {
    if order == [] then res
    else
      var value := Wrap8(p(order[0], res, past) - input[0]);
      Decode(p, order[1..], input[1..], res[order[0] := value], past + [input[0]])
  }

  /** The inputs that make Decode fill in the target's bytes. */
  ghost function Encode(p: Predictor, order: seq<nat>, target: seq<byte>, res: seq<byte>,
                        past: seq<byte>): (r: seq<byte>)
    requires |target| == |res| && Within(order, |res|)
    ensures |r| == |order|
    decreases |order|
  {
    if order == [] then []
    else
      var value := target[order[0]];
      var input := Wrap8(p(order[0], res, past) - value);
      [input] + Encode(p, order[1..], target, res[order[0] := value], past + [input])
  }

  lemma ByteBack(p: int, v: byte)
    ensures Wrap8(p - Wrap8(p - v)) == v
  {}

  /** Decoding what was encoded gives the target at every place of the order, and leaves the others. */
  lemma {:induction false} DecodeEncode(p: Predictor, order: seq<nat>, target: seq<byte>, res: seq<byte>,
                                        past: seq<byte>)
    requires |target| == |res| && Within(order, |res|)
    ensures var r := Decode(p, order, Encode(p, order, target, res, past), res, past);
      forall k :: 0 <= k < |res| ==> r[k] == if k in order then target[k] else res[k]
    decreases |order|
  {
    hide Wrap8;
    if order != [] {
      var value := target[order[0]];
      var input := Wrap8(p(order[0], res, past) - value);
      ByteBack(p(order[0], res, past), value);
      var res' := res[order[0] := value];
      DecodeEncode(p, order[1..], target, res', past + [input]);
      var inputs := Encode(p, order, target, res, past);
      var r := Decode(p, order, inputs, res, past);
      assert inputs[1..] == Encode(p, order[1..], target, res', past + [input]);
      assert r == Decode(p, order[1..], inputs[1..], res', past + [input]);
      forall k | 0 <= k < |res| ensures r[k] == if k in order then target[k] else res[k] {
        InFirstOrRest(order, k);
      }
    }
  }

  lemma InFirstOrRest(order: seq<nat>, k: nat)
    requires order != []
    ensures k in order <==> k == order[0] || k in order[1..]
  {}

  /** Places that are not in the order keep what they held. */
  lemma {:induction false} DecodeKeeps(p: Predictor, order: seq<nat>, input: seq<byte>, res: seq<byte>,
                                       past: seq<byte>, k: nat)
    requires |input| == |order| && Within(order, |res|) && k < |res| && k !in order
    ensures Decode(p, order, input, res, past)[k] == res[k]
    decreases |order|
  {
    if order != [] {
      var value := Wrap8(p(order[0], res, past) - input[0]);
      DecodeKeeps(p, order[1..], input[1..], res[order[0] := value], past + [input[0]], k);
    }
  }

  /** Encoding what was decoded gives the inputs back, when no place is filled twice. */
  lemma {:induction false} EncodeDecode(p: Predictor, order: seq<nat>, input: seq<byte>, res: seq<byte>,
                                        past: seq<byte>)
    requires |input| == |order| && Within(order, |res|) && Distinct(order)
    ensures Encode(p, order, Decode(p, order, input, res, past), res, past) == input
    decreases |order|
  {
    if order != [] {
      var value := Wrap8(p(order[0], res, past) - input[0]);
      var res' := res[order[0] := value];
      EncodeDecode(p, order[1..], input[1..], res', past + [input[0]]);
      DecodeKeeps(p, order[1..], input[1..], res', past + [input[0]], order[0]);
      ByteBack(p(order[0], res, past), input[0]);
      assert input == [input[0]] + input[1..];
    }
  }

  /** The places of n channels, one channel after another, from place pos of channel j on. */
  function Channels(n: nat, length: nat, j: nat, pos: nat): (order: seq<nat>)
    requires n >= 1
    ensures forall k :: 0 <= k < |order| ==> order[k] < length
    decreases if j <= n then n - j else 0, length - pos
  {
    if j >= n then []
    else if pos >= length then Channels(n, length, j + 1, j + 1)
    else [pos] + Channels(n, length, j, pos + n)
  }

  lemma ModPlus(x: nat, n: nat)
    requires n >= 1
    ensures (x + n) % n == x % n
  {
    var q, r := x / n, x % n;
    assert x + n == (q + 1) * n + r by { assert x == q * n + r; }
    DivModUnique(x + n, q + 1, n, r);
  }

  /** Two places of one channel lie at least n apart. */
  lemma SameChannel(x: nat, y: nat, n: nat)
    requires n >= 1 && x < y && x % n == y % n
    ensures x + n <= y
  {
    var qx, qy, r := x / n, y / n, x % n;
    assert x == qx * n + r && y == qy * n + r;
    if qy <= qx {
      Ordered(qy, qx, n);
    } else {
      Gap(qx, qy, n);
    }
  }

  lemma Ordered(a: int, b: int, m: nat)
    requires a <= b
    ensures a * m <= b * m
  {}

  /** Which places follow: the rest of this channel, and the later channels. */
  ghost predicate Follows(k: nat, n: nat, length: nat, j: nat, pos: nat)
    requires n >= 1
  {
    k < length && (k % n > j || (k % n == j && k >= pos))
  }

  lemma {:induction false} ChannelsHold(n: nat, length: nat, j: nat, pos: nat, k: nat)
    requires n >= 1 && j <= n && (j < n ==> pos % n == j)
    ensures k in Channels(n, length, j, pos) <==> Follows(k, n, length, j, pos)
    decreases n - j, length - pos
  {
    if j < n {
      if pos >= length {
        if j + 1 < n { SmallMod(j + 1, n); }
        ChannelsHold(n, length, j + 1, j + 1, k);
        if k < length && k % n == j + 1 { ModAtMost(k, n); }
      } else {
        ModPlus(pos, n);
        ChannelsHold(n, length, j, pos + n, k);
        if k > pos && k % n == j {
          SameChannel(pos, k, n);
        }
      }
    }
  }

  lemma SmallMod(x: nat, n: nat)
    requires x < n
    ensures x % n == x
  {}

  lemma {:induction false} ChannelsDistinct(n: nat, length: nat, j: nat, pos: nat)
    requires n >= 1 && j <= n && (j < n ==> pos % n == j)
    ensures Distinct(Channels(n, length, j, pos))
    decreases n - j, length - pos
  {
    if j < n {
      if pos >= length {
        if j + 1 < n { SmallMod(j + 1, n); }
        ChannelsDistinct(n, length, j + 1, j + 1);
      } else {
        ModPlus(pos, n);
        ChannelsDistinct(n, length, j, pos + n);
        ChannelsHold(n, length, j, pos + n, pos);
      }
    }
  }

  /** How many places of its channel lie before pos. */
  function Turn(n: nat, pos: nat): nat
    requires n >= 1
  {
    pos / n
  }

  /** All places, one channel after another. */
  function Interleaved(n: nat, length: nat): (order: seq<nat>)
    requires n >= 1
    ensures forall k :: 0 <= k < |order| ==> order[k] < length
  {
    Channels(n, length, 0, 0)
  }

  ghost function Places(order: seq<nat>): (s: set<nat>)
    ensures forall k: nat :: k in s <==> k in order
    ensures Distinct(order) ==> |s| == |order|
  {
    if order == [] then {} else {order[0]} + Places(order[1..])
  }

  ghost function Below(n: nat): (s: set<nat>)
    ensures |s| == n && forall k: nat :: k in s <==> k < n
  {
    if n == 0 then {} else Below(n - 1) + {n - 1}
  }

  /** Every place is visited exactly once. */
  lemma InterleavedIsPermutation(n: nat, length: nat)
    requires n >= 1
    ensures var order := Interleaved(n, length);
      |order| == length && Distinct(order) && forall k: nat :: k in order <==> k < length
  {
    var order := Interleaved(n, length);
    SmallMod(0, n);
    ChannelsDistinct(n, length, 0, 0);
    forall k: nat ensures k in order <==> k < length {
      ChannelsHold(n, length, 0, 0, k);
    }
    assert Places(order) == Below(length);
  }

  /** A predictive filter over n channels, filling a result that starts out as res. */
  function Filtered(p: Predictor, n: nat, input: seq<byte>, res: seq<byte>): (r: seq<byte>)
    requires n >= 1 && |input| == |res|
    ensures |r| == |input|
  {
    InterleavedIsPermutation(n, |res|);
    Decode(p, Interleaved(n, |res|), input, res, [])
  }

  ghost function Unfiltered(p: Predictor, n: nat, target: seq<byte>, res: seq<byte>): (r: seq<byte>)
    requires n >= 1 && |target| == |res|
    ensures |r| == |target|
  {
    InterleavedIsPermutation(n, |res|);
    Encode(p, Interleaved(n, |res|), target, res, [])
  }

  /** Every predictive filter has an inverse on both sides. */
  lemma Inverses(p: Predictor, n: nat, data: seq<byte>, res: seq<byte>)
    requires n >= 1 && |data| == |res|
    ensures Filtered(p, n, Unfiltered(p, n, data, res), res) == data
    ensures Unfiltered(p, n, Filtered(p, n, data, res), res) == data
  {
    InterleavedIsPermutation(n, |res|);
    DecodeEncode(p, Interleaved(n, |res|), data, res, []);
    EncodeDecode(p, Interleaved(n, |res|), data, res, []);
  }

  /** Part way: i inputs are used, the result so far is res, and the next place is pos of channel j. */
  ghost predicate Pending(p: Predictor, n: nat, j: nat, pos: nat, input: seq<byte>, i: nat, res: seq<byte>,
                          all: seq<byte>)
    requires n >= 1
  {
    var order := Channels(n, |res|, j, pos);
    && i <= |input| == |res| && |order| == |input| - i
    && all == Decode(p, order, input[i..], res, input[..i])
  }

  lemma PendingStart(p: Predictor, n: nat, input: seq<byte>, res: seq<byte>)
    requires n >= 1 && |input| == |res|
    ensures Pending(p, n, 0, 0, input, 0, res, Filtered(p, n, input, res))
  {
    InterleavedIsPermutation(n, |res|);
    assert input[0..] == input && input[..0] == [];
  }

  lemma PendingByte(p: Predictor, n: nat, j: nat, pos: nat, input: seq<byte>, i: nat, res: seq<byte>, all: seq<byte>)
    requires n >= 1 && j < n && pos < |res| && Pending(p, n, j, pos, input, i, res, all)
    ensures i < |input|
    ensures Pending(p, n, j, pos + n, input, i + 1, res[pos := Wrap8(p(pos, res, input[..i]) - input[i])], all)
  {
    assert input[i..][1..] == input[i + 1..] && input[..i] + [input[i]] == input[..i + 1];
  }

  lemma PendingChannel(p: Predictor, n: nat, j: nat, pos: nat, input: seq<byte>, i: nat, res: seq<byte>, all: seq<byte>)
    requires n >= 1 && j < n && pos >= |res| && Pending(p, n, j, pos, input, i, res, all)
    ensures Pending(p, n, j + 1, j + 1, input, i, res, all)
  {}

  lemma PendingEnd(p: Predictor, n: nat, input: seq<byte>, i: nat, res: seq<byte>, all: seq<byte>)
    requires n >= 1 && Pending(p, n, n, n, input, i, res, all)
    ensures i == |input| && res == all
  {}

  // Which input fills which place.

  /** How many places channel j has. */
  function Size(n: nat, length: nat, j: nat): nat
    requires n >= 1
  {
    if j >= length then 0 else (length - j - 1) / n + 1
  }

  /** How many places the channels before channel j have. */
  function Start(n: nat, length: nat, j: nat): nat
    requires n >= 1
  {
    if j == 0 then 0 else Start(n, length, j - 1) + Size(n, length, j - 1)
  }

  /** A channel is over after its places. */
  lemma SizeIs(n: nat, length: nat, j: nat, t: nat)
    requires n >= 1 && j + t * n >= length && (t == 0 || j + (t - 1) * n < length)
    ensures Size(n, length, j) == t
  {
    if t > 0 {
      var r := length - j - 1 - (t - 1) * n;
      assert j + t * n == j + (t - 1) * n + n;
      Nonnegative(t - 1, n);
      DivModUnique(length - j - 1, t - 1, n, r);
    }
  }

  lemma Nonnegative(a: nat, b: nat)
    ensures a * b >= 0
  {}

  lemma NextPlace(j: nat, t: nat, n: nat)
    ensures j + (t + 1) * n == j + t * n + n && t * n >= 0
  {}

  /** The place of channel c with m places of the channel before it is filled from the m-th of the channel's inputs,
      which come after those of the channels before; `seen` is the result as it was then, with all places before
      filled. */
  lemma {:induction false} PlaceFilled(p: Predictor, n: nat, j: nat, t: nat, input: seq<byte>, res: seq<byte>,
                                       all: seq<byte>, c: nat, m: nat) returns (seen: seq<byte>)
    requires n >= 1 && j <= c < n && (j == c ==> t <= m) && m * n >= 0 && t * n >= 0 && c + m * n < |input|
    requires t == 0 || j + (t - 1) * n < |input|
    requires Pending(p, n, j, j + t * n, input, Start(n, |input|, j) + t, res, all)
    ensures |seen| == |all| == |input| && Start(n, |input|, c) + m < |input|
    ensures var pos, k := c + m * n, Start(n, |input|, c) + m;
      all[pos] == Wrap8(p(pos, seen, input[..k]) - input[k]) && AgreeBefore(seen, all, n, c, pos)
    decreases c - j, |input| - (j + t * n)
  {
    hide Pending;
    hide AgreeBefore;
    hide Wrap8;
    hide Start;
    var pos, i := j + t * n, Start(n, |input|, j) + t;
    PendingSizes(p, n, j, pos, input, i, res, all);
    if j == c && t == m {
      seen := res;
      PendingHere(p, n, j, t, input, i, res, all);
    } else if pos >= |input| {
      if j == c { NoLater(c, t, m, n); }
      SizeIs(n, |input|, j, t);
      StartNext(n, |input|, j);
      PendingChannel(p, n, j, pos, input, i, res, all);
      assert 0 * n == 0;
      seen := PlaceFilled(p, n, j + 1, 0, input, res, all, c, m);
    } else {
      PendingByte(p, n, j, pos, input, i, res, all);
      NextPlace(j, t, n);
      seen := PlaceFilled(p, n, j, t + 1, input, res[pos := Wrap8(p(pos, res, input[..i]) - input[i])], all, c, m);
    }
  }

  lemma StartNext(n: nat, length: nat, j: nat)
    requires n >= 1
    ensures Start(n, length, j + 1) == Start(n, length, j) + Size(n, length, j)
  {}

  lemma NoLater(c: nat, t: nat, m: nat, n: nat)
    requires n >= 1 && t < m
    ensures c + t * n < c + m * n
  {
    Gap(t, m, n);
  }

  lemma PendingSizes(p: Predictor, n: nat, j: nat, pos: nat, input: seq<byte>, i: nat, res: seq<byte>, all: seq<byte>)
    requires n >= 1 && Pending(p, n, j, pos, input, i, res, all)
    ensures i <= |input| == |res| == |all|
  {}

  /** The next place to be filled, and those filled already. */
  lemma PendingHere(p: Predictor, n: nat, j: nat, t: nat, input: seq<byte>, i: nat, res: seq<byte>, all: seq<byte>)
    requires n >= 1 && j < n && t * n >= 0 && j + t * n < |input| && Pending(p, n, j, j + t * n, input, i, res, all)
    ensures i < |input| == |res| == |all|
    ensures var pos := j + t * n;
      all[pos] == Wrap8(p(pos, res, input[..i]) - input[i]) && AgreeBefore(res, all, n, j, pos)
  {
    hide Decode;
    hide Wrap8;
    var pos := j + t * n;
    DivModUnique(pos, t, n, j);
    var order := Channels(n, |res|, j, pos);
    var value := Wrap8(p(pos, res, input[..i]) - input[i]);
    PendingByte(p, n, j, pos, input, i, res, all);
    ModPlus(pos, n);
    ChannelsHold(n, |res|, j, pos + n, pos);
    assert pos !in Channels(n, |res|, j, pos + n);
    DecodeKeeps(p, Channels(n, |res|, j, pos + n), input[i + 1..], res[pos := value], input[..i + 1], pos);
    forall k: nat | k < |res| && !Follows(k, n, |res|, j, pos) ensures res[k] == all[k] {
      ChannelsHold(n, |res|, j, pos, k);
      DecodeKeeps(p, order, input[i..], res, input[..i], k);
    }
  }

  /** The same of a whole filter. */
  lemma FilteredAt(p: Predictor, n: nat, input: seq<byte>, res: seq<byte>, c: nat, m: nat) returns (seen: seq<byte>)
    requires n >= 1 && |input| == |res| && c < n && m * n >= 0 && c + m * n < |input|
    ensures |seen| == |input| && Start(n, |input|, c) + m < |input|
    ensures var pos, k := c + m * n, Start(n, |input|, c) + m;
      var all := Filtered(p, n, input, res);
      all[pos] == Wrap8(p(pos, seen, input[..k]) - input[k]) && AgreeBefore(seen, all, n, c, pos)
  {
    hide Filtered;
    hide Wrap8;
    PendingStart(p, n, input, res);
    assert 0 * n == 0;
    seen := PlaceFilled(p, n, 0, 0, input, res, Filtered(p, n, input, res), c, m);
  }

  /** The predictor looks only at places of the result that are filled before pos. */
  ghost predicate LooksBack(p: Predictor, n: nat)
    requires n >= 1
  {
    forall pos: nat, a: seq<byte>, b: seq<byte>, past: seq<byte> ::
      |a| == |b| && pos < |a| && AgreeBefore(a, b, n, pos % n, pos) ==> p(pos, a, past) == p(pos, b, past)
  }

  ghost predicate AgreeBefore(a: seq<byte>, b: seq<byte>, n: nat, j: nat, pos: nat)
    requires n >= 1 && |a| == |b|
  {
    forall k: nat :: k < |a| && !Follows(k, n, |a|, j, pos) ==> a[k] == b[k]
  }

  lemma LooksBackAt(p: Predictor, n: nat, pos: nat, a: seq<byte>, b: seq<byte>, past: seq<byte>)
    requires n >= 1 && LooksBack(p, n) && |a| == |b| && pos < |a| && AgreeBefore(a, b, n, pos % n, pos)
    ensures p(pos, a, past) == p(pos, b, past)
  {}

  lemma AgreeFilled(a: seq<byte>, b: seq<byte>, n: nat, j: nat, pos: nat, value: byte)
    requires n >= 1 && |a| == |b| && pos < |a| && pos % n == j && AgreeBefore(a, b, n, j, pos)
    ensures AgreeBefore(a[pos := value], b[pos := value], n, j, pos + n)
  {
    forall k: nat | k < |a| && !Follows(k, n, |a|, j, pos + n) && k != pos ensures a[k] == b[k] {
      if k % n == j && k > pos { SameChannel(pos, k, n); }
    }
  }

  lemma AgreeChannel(a: seq<byte>, b: seq<byte>, n: nat, j: nat, pos: nat)
    requires n >= 1 && |a| == |b| <= pos && AgreeBefore(a, b, n, j, pos)
    ensures AgreeBefore(a, b, n, j + 1, j + 1)
  {
    forall k: nat | k < |a| && !Follows(k, n, |a|, j + 1, j + 1) ensures a[k] == b[k] {
      if k % n == j + 1 { ModAtMost(k, n); }
    }
  }

  lemma AgreeEnd(a: seq<byte>, b: seq<byte>, n: nat, j: nat, pos: nat)
    requires n >= 1 && |a| == |b| && j >= n && AgreeBefore(a, b, n, j, pos)
    ensures a == b
  {}

  /** Such a filter's result does not depend on what the memory for it held before. */
  lemma {:induction false} MemoryIrrelevantFrom(p: Predictor, n: nat, j: nat, pos: nat, input: seq<byte>, a: seq<byte>,
                                                b: seq<byte>, past: seq<byte>)
    requires n >= 1 && j <= n && (j < n ==> pos % n == j) && |a| == |b| && LooksBack(p, n)
      && AgreeBefore(a, b, n, j, pos)
    requires |input| == |Channels(n, |a|, j, pos)|
    ensures Decode(p, Channels(n, |a|, j, pos), input, a, past) == Decode(p, Channels(n, |a|, j, pos), input, b, past)
    decreases n - j, |a| - pos
  {
    hide LooksBack;
    hide AgreeBefore;
    if j >= n {
      AgreeEnd(a, b, n, j, pos);
    } else if pos >= |a| {
      if j + 1 < n { SmallMod(j + 1, n); }
      AgreeChannel(a, b, n, j, pos);
      MemoryIrrelevantFrom(p, n, j + 1, j + 1, input, a, b, past);
    } else {
      ModPlus(pos, n);
      LooksBackAt(p, n, pos, a, b, past);
      var value := Wrap8(p(pos, a, past) - input[0]);
      AgreeFilled(a, b, n, j, pos, value);
      MemoryIrrelevantFrom(p, n, j, pos + n, input[1..], a[pos := value], b[pos := value], past + [input[0]]);
    }
  }

  lemma MemoryIrrelevant(p: Predictor, n: nat, input: seq<byte>, a: seq<byte>, b: seq<byte>)
    requires n >= 1 && |a| == |b| == |input| && LooksBack(p, n)
    ensures Filtered(p, n, input, a) == Filtered(p, n, input, b)
  {
    SmallMod(0, n);
    InterleavedIsPermutation(n, |a|);
    forall k: nat | k < |a| ensures Follows(k, n, |a|, 0, 0) {
      ChannelsHold(n, |a|, 0, 0, k);
    }
    MemoryIrrelevantFrom(p, n, 0, 0, input, a, b, []);
  }
}

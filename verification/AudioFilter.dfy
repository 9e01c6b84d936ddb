/** The adaptive audio filter: a predictive filter whose coefficients follow the data. */
module AudioFilter {
  import opened Machine
  import opened Predictive
  import opened PredictiveFilters

  /** The state of one channel: the last value, how many there were, the costs of the possible
      adjustments, the last differences, and the coefficients. */
  datatype Channel = Channel(prev: int, count: nat, diff: seq<nat>, d: seq<int>, k: seq<int>)

  /** The shape of a state, and the range the coefficients never leave. */
  predicate Adapted(c: Channel) {
    |c.diff| == 7 && |c.d| == 3 && |c.k| == 3 && forall m :: 0 <= m < 3 ==> -17 <= c.k[m] <= 16
  }

  const START := Channel(0, 0, [0, 0, 0, 0, 0, 0, 0], [0, 0, 0], [0, 0, 0])

  function Predict(c: Channel): int
    requires Adapted(c)
  {
    Signed8((c.prev * 8 + c.k[0] * c.d[0] + c.k[1] * c.d[1] + c.k[2] * c.d[2]) / 8)
  }

  /** The first of the least among the first n costs. */
  function Least(diff: seq<nat>, n: nat): (r: nat)
    requires 1 <= n <= |diff|
    ensures r < n && (forall j :: 0 <= j < n ==> diff[r] <= diff[j]) && forall j :: 0 <= j < r ==> diff[r] < diff[j]
  {
    if n == 1 then 0
    else
      var r := Least(diff, n - 1);
      if diff[n - 1] < diff[r] then n - 1 else r
  }

  /** Move one coefficient a step, down or up, unless it is at its limit. */
  function Adjusted(k: seq<int>, choice: nat): (r: seq<int>)
    requires |k| == 3 && choice <= 6
    ensures |r| == 3
  {
    if choice == 0 then k
    else
      var m := (choice - 1) / 2;
      if (choice - 1) % 2 == 0 then
        if k[m] >= -16 then k[m := k[m] - 1] else k
      else
        if k[m] < 16 then k[m := k[m] + 1] else k
  }

  function Costs(diff: seq<nat>, d: seq<int>, dd: int): (r: seq<nat>)
    requires |diff| == 7 && |d| == 3
    ensures |r| == 7
  {
    [diff[0] + Abs(dd),
     diff[1] + Abs(dd - d[0]), diff[2] + Abs(dd + d[0]),
     diff[3] + Abs(dd - d[1]), diff[4] + Abs(dd + d[1]),
     diff[5] + Abs(dd - d[2]), diff[6] + Abs(dd + d[2])]
  }

  /** The state after one more input; every 32nd time the coefficients are adjusted. */
  function Next(c: Channel, input: byte): (r: Channel)
    requires Adapted(c)
    ensures Adapted(r)
  {
    var cur := Signed8(input);
    var value := Predict(c) - cur;
    var delta := Signed8(value - c.prev);
    var costs := Costs(c.diff, c.d, cur * 8);
    var adjust := c.count % 32 == 0;
    Channel(value, c.count + 1,
            if adjust then START.diff else costs,
            [delta, delta - c.d[0], c.d[1]],
            if adjust then Adjusted(c.k, Least(costs, 7)) else c.k)
  }

  /** The state after a channel's inputs. */
  function After(inputs: seq<byte>): (r: Channel)
    ensures Adapted(r) && r.count == |inputs|
  {
    if inputs == [] then START else Next(After(inputs[..|inputs| - 1]), inputs[|inputs| - 1])
  }

  /** The inputs of the channel that pos belongs to: as many as there are places before it. */
  function OwnInputs(n: nat, pos: nat, past: seq<byte>): seq<byte>
    requires n >= 1
  {
    if Turn(n, pos) <= |past| then past[|past| - Turn(n, pos)..] else past
  }

  function AudioPredictor(n: nat): Predictor
    requires n >= 1
  {
    (pos: nat, res: seq<byte>, past: seq<byte>) => Predict(After(OwnInputs(n, pos, past)))
  }

  /** A state as the loop's variables. */
  ghost predicate Holds(prev: int, count: nat, diff: seq<nat>, d: seq<int>, k: seq<int>, inputs: seq<byte>) {
    Channel(prev, count, diff, d, k) == After(inputs)
  }

  lemma OwnInputsAre(n: nat, pos: nat, c: nat, count: nat, past: seq<byte>)
    requires c < n && count <= |past| && pos == c + count * n
    ensures OwnInputs(n, pos, past) == past[|past| - count..]
  {
    DivModUnique(pos, count, n, c);
  }

  /** Which adjustment costs least; the costs start again from zero. */
  method Choose(diff: seq<nat>) returns (n: nat, zeros: seq<nat>)
    requires |diff| == 7
    ensures n == Least(diff, 7) && zeros == START.diff
  {
    var min := diff[0];
    zeros := diff[0 := 0];
    n := 0;
    for j := 1 to 7
      invariant |zeros| == 7 && (forall i :: 0 <= i < j ==> zeros[i] == 0) && forall i :: j <= i < 7 ==>
        zeros[i] == diff[i]
      invariant n == Least(diff, j) && min == diff[n]
    {
      if zeros[j] < min {
        min := zeros[j];
        n := j;
      }
      zeros := zeros[j := 0];
    }
  }

  /** The prediction from a state's variables. */
  method Predicted(prev: int, k: seq<int>, d: seq<int>, ghost c: Channel) returns (predicted: int)
    requires Adapted(c) && prev == c.prev && k == c.k && d == c.d
    ensures predicted == Predict(c)
  {
    predicted := prev * 8 + k[0] * d[0] + k[1] * d[1] + k[2] * d[2];
    predicted := Signed8(predicted / 8);
  }

  /** Add to the cost of each adjustment how far it would be from the input. */
  method Tally(diff: seq<nat>, d: seq<int>, dd: int) returns (r: seq<nat>)
    requires |diff| == 7 && |d| == 3
    ensures r == Costs(diff, d, dd)
  {
    r := diff[0 := diff[0] + Abs(dd)];
    r := r[1 := r[1] + Abs(dd - d[0])];
    r := r[2 := r[2] + Abs(dd + d[0])];
    r := r[3 := r[3] + Abs(dd - d[1])];
    r := r[4 := r[4] + Abs(dd + d[1])];
    r := r[5 := r[5] + Abs(dd - d[2])];
    r := r[6 := r[6] + Abs(dd + d[2])];
  }

  method Adjust(k: seq<int>, choice: nat) returns (r: seq<int>)
    requires |k| == 3 && choice <= 6
    ensures r == Adjusted(k, choice)
  {
    r := k;
    var n := choice - 1;
    if n >= 0 {
      var m := n / 2;
      if n % 2 == 0 {
        if r[m] >= -16 {
          r := r[m := r[m] - 1];
        }
      } else {
        if r[m] < 16 {
          r := r[m := r[m] + 1];
        }
      }
    }
  }

  /** One byte of a channel. */
  method Step(prev: int, count: nat, diff: seq<nat>, d: seq<int>, k: seq<int>, input: byte, ghost inputs: seq<byte>)
    returns (prev': int, diff': seq<nat>, d': seq<int>, k': seq<int>)
    requires Holds(prev, count, diff, d, k, inputs)
    ensures Holds(prev', count + 1, diff', d', k', inputs + [input])
    ensures prev' == Predict(After(inputs)) - Signed8(input)
  {
    hide Predict;
    hide Signed8;
    hide Costs;
    hide Adjusted;
    hide Least;
    assert (inputs + [input])[..|inputs|] == inputs;
    var predicted := Predicted(prev, k, d, After(inputs));
    var curByte := Signed8(input);
    predicted := predicted - curByte;
    diff' := Tally(diff, d, curByte * 8);
    var prevDelta := Signed8(predicted - prev);
    prev' := predicted;
    d' := d[2 := d[1]];
    d' := d'[1 := prevDelta - d[0]];
    d' := d'[0 := prevDelta];
    assert d' == [prevDelta, prevDelta - d[0], d[1]];
    k' := k;
    if count % 32 == 0 {
      var n;
      n, diff' := Choose(diff');
      k' := Adjust(k, n);
    }
  }

  /** Rebuild the channels of a sound. */
  method FilterAudio(chans: nat, buf: seq<byte>) returns (res: array<byte>)
    ensures fresh(res) && res.Length == |buf|
    ensures chans >= 1 ==> res[..] == Filtered(AudioPredictor(chans), chans, buf, Zeros(|buf|))
    ensures chans == 0 ==> res[..] == Zeros(|buf|)
  {
    hide Pending;
    hide Filtered;
    hide Holds;
    hide Predict;
    hide After;
    hide OwnInputs;
    res := new byte[|buf|](_ => 0);
    assert res[..] == Zeros(|buf|);
    if chans == 0 {
      return;
    }
    ghost var p, all := AudioPredictor(chans), Filtered(AudioPredictor(chans), chans, buf, Zeros(|buf|));
    PendingStart(p, chans, buf, res[..]);
    var next := 0;
    for c := 0 to chans
      invariant 0 <= next && Pending(p, chans, c, c, buf, next, res[..], all)
    {
      var prevByte, byteCount: nat, diff, d, k := START.prev, 0, START.diff, START.d, START.k;
      HoldsStart();
      PendingPlace(p, chans, c, c, buf, next, res[..], all);
      assert buf[next..next] == [];
      var i := c;
      while i < res.Length
        invariant 0 <= next && Pending(p, chans, c, i, buf, next, res[..], all)
        invariant i == c + byteCount * chans && byteCount <= next <= |buf|
        invariant Holds(prevByte, byteCount, diff, d, k, buf[next - byteCount..next])
        decreases res.Length - i
      {
        PendingByte(p, chans, c, i, buf, next, res[..], all);
        OwnInputsAre(chans, i, c, byteCount, buf[..next]);
        assert buf[..next][next - byteCount..] == buf[next - byteCount..next];
        assert buf[next - byteCount..next] + [buf[next]] == buf[next - byteCount..next + 1];
        prevByte, diff, d, k := Step(prevByte, byteCount, diff, d, k, buf[next], buf[next - byteCount..next]);
        ghost var before := res[..];
        SameByte(p(i, before, buf[..next]), buf[next]);
        res[i] := Wrap8(prevByte);
        assert res[..] == before[i := Wrap8(prevByte)];
        next := next + 1;
        byteCount := byteCount + 1;
        i := i + chans;
      }
      PendingChannel(p, chans, c, i, buf, next, res[..], all);
    }
    PendingEnd(p, chans, buf, next, res[..], all);
  }

  lemma HoldsStart()
    ensures Holds(START.prev, 0, START.diff, START.d, START.k, [])
  {}

  lemma PendingPlace(p: Predictor, n: nat, j: nat, pos: nat, input: seq<byte>, i: nat, res: seq<byte>, all: seq<byte>)
    requires n >= 1 && Pending(p, n, j, pos, input, i, res, all)
    ensures i <= |input|
  {}

  /** Subtracting a byte or the number it stands for with a sign gives the same low bits. */
  lemma SameByte(x: int, b: byte)
    ensures Wrap8(x - Signed8(b)) == Wrap8(x - b)
  {}
}

/** What the predictive filters make of their inputs, place by place. */
module FilterLaws {
  import opened Machine
  import opened Predictive
  import opened PredictiveFilters
  import opened AudioFilter

  /** A place of the same channel n before is filled before. */
  lemma BeforeSeen(a: seq<byte>, b: seq<byte>, n: nat, c: nat, pos: nat, back: nat)
    requires n >= 1 && |a| == |b| && pos < |a| && c < n && AgreeBefore(a, b, n, c, pos)
    requires back <= pos && back > 0 && (pos - back) % n == c
    ensures a[pos - back] == b[pos - back]
  {
    assert !Follows(pos - back, n, |a|, c, pos);
  }

  // Delta.

  function SumOf(s: seq<byte>): int {
    if s == [] then 0 else SumOf(s[..|s| - 1]) + s[|s| - 1]
  }

  /** A byte and its input add up to the byte before in the channel. */
  lemma DeltaByte(n: nat, buf: seq<byte>, c: nat, m: nat)
    requires n >= 1 && c < n && m * n >= 0 && c + m * n < |buf|
    ensures Start(n, |buf|, c) + m < |buf|
    ensures var r, pos := Filtered(DeltaPredictor(n), n, buf, Zeros(|buf|)), c + m * n;
      && (m > 0 ==> pos >= n)
      && var before: int := if m == 0 then 0 else r[pos - n];
      r[pos] == Wrap8(before - buf[Start(n, |buf|, c) + m])
  {
    hide Filtered;
    hide AgreeBefore;
    hide Start;
    hide Wrap8;
    var pos := c + m * n;
    var r := Filtered(DeltaPredictor(n), n, buf, Zeros(|buf|));
    var seen := FilteredAt(DeltaPredictor(n), n, buf, Zeros(|buf|), c, m);
    if m == 0 {
      assert pos == c;
    } else {
      NextPlace(c, m - 1, n);
      DivModUnique(pos - n, m - 1, n, c);
      BeforeSeen(seen, r, n, c, pos, n);
    }
  }

  /** Byte m of channel c is the negated sum of the channel's first m + 1 inputs; the channels' inputs follow each
      other. */
  lemma {:induction false} DeltaSums(n: nat, buf: seq<byte>, c: nat, m: nat)
    requires n >= 1 && c < n && m * n >= 0 && c + m * n < |buf|
    ensures Start(n, |buf|, c) + m < |buf|
    ensures var from := Start(n, |buf|, c);
      Filtered(DeltaPredictor(n), n, buf, Zeros(|buf|))[c + m * n] == Wrap8(-SumOf(buf[from..from + m + 1]))
    decreases m
  {
    hide Filtered;
    hide DeltaPredictor;
    hide Start;
    hide Wrap8;
    DeltaByte(n, buf, c, m);
    var from := Start(n, |buf|, c);
    var inputs := buf[from..from + m + 1];
    assert inputs[..m] == buf[from..from + m];
    if m > 0 {
      NextPlace(c, m - 1, n);
      DeltaSums(n, buf, c, m - 1);
      WrapTwice(-SumOf(buf[from..from + m]), buf[from + m]);
    }
  }

  lemma WrapTwice(x: int, y: int)
    ensures Wrap8(Wrap8(x) - y) == Wrap8(x - y)
  {}

  // Pictures.

  /** With whole pixels to a line, each byte and its input add up to the nearest of the three neighbours of its colour
      that are three places, a line, and a line and three places before it; in the first line and pixel, to the left
      one. */
  lemma RgbByte(width: nat, buf: seq<byte>, mem: seq<byte>, c: nat, m: nat)
    requires width > 0 && width % 3 == 0 && |buf| == |mem| && c < 3 && c + m * 3 < |buf|
    ensures Start(3, |buf|, c) + m < |buf|
    ensures var r, pos := Filtered(RgbPredictor(width), 3, buf, mem), c + m * 3;
      var left: int := if pos >= 3 then r[pos - 3] else 0;
      var near := if pos >= width + 3 then Nearest(left, r[pos - width], r[pos - width - 3]) else left;
      r[pos] == Wrap8(near - buf[Start(3, |buf|, c) + m])
    ensures width + 3 < 0x1_0000_0000 ==> RgbWidth(width + 3) == width
  {
    hide Filtered;
    hide AgreeBefore;
    hide Start;
    hide Wrap8;
    hide Nearest;
    var r, pos := Filtered(RgbPredictor(width), 3, buf, mem), c + m * 3;
    var seen := FilteredAt(RgbPredictor(width), 3, buf, mem, c, m);
    DivModUnique(pos, m, 3, c);
    if pos >= 3 { BeforeSeen(seen, r, 3, c, pos, 3); }
    if pos >= width + 3 {
      BeforeSeen(seen, r, 3, c, pos, width);
      BeforeSeen(seen, r, 3, c, pos, width + 3);
    }
  }

  // Sound.

  /** The last byte of a channel after its inputs; 0 before any. */
  function Output(inputs: seq<byte>): byte { Wrap8(After(inputs).prev) }

  lemma AfterOne(inputs: seq<byte>, input: byte)
    ensures After(inputs + [input]) == Next(After(inputs), input)
  {
    hide Next;
    assert (inputs + [input])[..|inputs|] == inputs;
  }

  lemma NextByte(c: Channel, input: byte)
    requires Adapted(c)
    ensures Next(c, input).prev == Predict(c) - Signed8(input)
  {
    hide Predict;
    hide Signed8;
    hide Costs;
    hide Least;
    hide Adjusted;
  }

  /** A byte is its prediction less the input. */
  lemma OutputOne(inputs: seq<byte>, input: byte)
    ensures Output(inputs + [input]) == Wrap8(Predict(After(inputs)) - input)
  {
    hide Predict;
    hide Next;
    hide After;
    hide Signed8;
    hide Wrap8;
    AfterOne(inputs, input);
    NextByte(After(inputs), input);
    SameByte(Predict(After(inputs)), input);
  }

  /** Byte m of channel c is what the channel's first m + 1 inputs come to. */
  lemma AudioByte(n: nat, buf: seq<byte>, c: nat, m: nat)
    requires n >= 1 && c < n && m * n >= 0 && c + m * n < |buf|
    ensures Start(n, |buf|, c) + m < |buf|
    ensures var from := Start(n, |buf|, c);
      Filtered(AudioPredictor(n), n, buf, Zeros(|buf|))[c + m * n] == Output(buf[from..from + m + 1])
  {
    hide Filtered;
    hide AgreeBefore;
    hide Start;
    hide Predict;
    hide Wrap8;
    hide After;
    hide OwnInputs;
    hide Output;
    var pos, from := c + m * n, Start(n, |buf|, c);
    var seen := FilteredAt(AudioPredictor(n), n, buf, Zeros(|buf|), c, m);
    OwnInputsAre(n, pos, c, m, buf[..from + m]);
    assert buf[..from + m][from + m - m..] == buf[from..from + m];
    assert buf[from..from + m] + [buf[from + m]] == buf[from..from + m + 1];
    OutputOne(buf[from..from + m], buf[from + m]);
  }

  /** While the coefficients are zero, a byte is the one before it less the input. */
  lemma StillSubtracts(inputs: seq<byte>, input: byte)
    requires After(inputs).k == [0, 0, 0]
    ensures Output(inputs + [input]) == Wrap8(Output(inputs) - input)
  {
    hide Predict;
    hide After;
    hide Signed8;
    hide Wrap8;
    OutputOne(inputs, input);
    PredictStill(After(inputs));
    Signed8Byte(After(inputs).prev, input);
  }

  lemma PredictStill(c: Channel)
    requires Adapted(c) && c.k == [0, 0, 0]
    ensures Predict(c) == Signed8(c.prev)
  {
    hide Signed8;
    assert c.prev * 8 + c.k[0] * c.d[0] + c.k[1] * c.d[1] + c.k[2] * c.d[2] == c.prev * 8;
  }

  lemma Signed8Byte(x: int, y: int)
    ensures Wrap8(Signed8(x) - y) == Wrap8(Wrap8(x) - y)
  {}

  function Quiet(n: nat): seq<byte> { seq(n, _ => 0) }

  /** After one input, and then zeros, a channel stays where it is. */
  lemma {:induction false} QuietStays(b: byte, n: nat)
    ensures Output([b] + Quiet(n)) == Wrap8(-(b as int))
    ensures After([b] + Quiet(n)).k == [0, 0, 0] && After([b] + Quiet(n)).diff[0] == 0
  {
    hide Wrap8;
    hide After;
    hide Output;
    hide Next;
    var inputs := [b] + Quiet(n);
    if n == 0 {
      assert inputs == [] + [b];
      FirstByte(b);
    } else {
      QuietStays(b, n - 1);
      var before := [b] + Quiet(n - 1);
      assert inputs == before + [0];
      StillSubtracts(before, 0);
      WrapTwice(-(b as int), 0);
      AfterOne(before, 0);
      StaysStill(After(before));
    }
  }

  lemma FirstByte(b: byte)
    ensures Output([] + [b]) == Wrap8(-(b as int))
    ensures After([] + [b]).k == [0, 0, 0] && After([] + [b]).diff[0] == 0
  {
    hide Signed8;
    hide Predict;
    hide Wrap8;
    AfterOne([], b);
    OutputOne([], b);
    PredictStill(START);
    assert Signed8(0) == 0 by { ZeroByte(); }
    var costs := Costs(START.diff, START.d, Signed8(b) * 8);
    assert Least(costs, 7) == 0 by {
      assert forall j :: 0 <= j < 7 ==> costs[j] == costs[0];
    }
  }

  lemma ZeroByte()
    ensures Signed8(0) == 0
  {}

  /** Without an input, and nothing to gain, no coefficient moves. */
  lemma StaysStill(c: Channel)
    requires Adapted(c) && c.diff[0] == 0
    ensures Next(c, 0).k == c.k && Next(c, 0).diff[0] == 0
  {
    hide Predict;
    ZeroByte();
    hide Signed8;
    var costs := Costs(c.diff, c.d, 0);
    assert Least(costs, 7) == 0 by { assert costs[0] == 0; }
  }

  // What the prediction follows.

  /** How the last byte of a channel differs from the one before, as a number with a sign. */
  function Change(inputs: seq<byte>): int {
    if inputs == [] then 0 else Signed8(Output(inputs) - Output(inputs[..|inputs| - 1]))
  }

  /** How that difference differs from the one before. */
  function Bend(inputs: seq<byte>): int {
    if inputs == [] then 0 else Change(inputs) - Change(inputs[..|inputs| - 1])
  }

  lemma SignedWrapped(x: int, y: int)
    ensures Signed8(Wrap8(x) - Wrap8(y)) == Signed8(x - y)
  {}

  /** A channel's differences are those of its bytes: the last one, its change, and the change before that. */
  lemma {:induction false} Differences(inputs: seq<byte>)
    ensures After(inputs).d == [Change(inputs), Bend(inputs), if inputs == [] then 0 else Bend(inputs[..|inputs| - 1])]
  {
    hide Predict;
    hide Signed8;
    hide Wrap8;
    hide Costs;
    hide Least;
    hide Adjusted;
    if inputs != [] {
      var before, input := inputs[..|inputs| - 1], inputs[|inputs| - 1];
      Differences(before);
      assert before + [input] == inputs;
      AfterOne(before, input);
      SignedWrapped(After(inputs).prev, After(before).prev);
    }
  }

  /** x added n times, or taken away. */
  function Times(x: int, n: int): int
    decreases if n < 0 then -n else n
  {
    if n == 0 then 0 else if n > 0 then Times(x, n - 1) + x else Times(x, n + 1) - x
  }

  lemma {:induction false} TimesIs(x: int, n: int)
    ensures Times(x, n) == x * n
    decreases if n < 0 then -n else n
  {
    if n > 0 {
      TimesIs(x, n - 1);
      assert x * n == x * (n - 1) + x;
    } else if n < 0 {
      TimesIs(x, n + 1);
      assert x * n == x * (n + 1) - x;
    }
  }

  /** Eight times what a channel predicts, with these coefficients: eight times the last value, and each difference as
      often as its coefficient says. */
  function Weighed(c: Channel, k: seq<int>): int
    requires |c.d| == 3 == |k|
  {
    c.prev * 8 + Times(c.d[0], k[0]) + Times(c.d[1], k[1]) + Times(c.d[2], k[2])
  }

  /** A step of a coefficient moves eight times the prediction by its difference. */
  lemma WeighedStep(c: Channel, k: seq<int>, m: nat)
    requires |c.d| == 3 == |k| && m < 3
    ensures Weighed(c, k[m := k[m] + 1]) == Weighed(c, k) + c.d[m]
    ensures Weighed(c, k[m := k[m] - 1]) == Weighed(c, k) - c.d[m]
    ensures Weighed(c, [0, 0, 0]) == c.prev * 8
  {}

  lemma PredictWeighs(c: Channel)
    requires Adapted(c)
    ensures Predict(c) == Signed8(Weighed(c, c.k) / 8)
  {
    hide Signed8;
    TimesIs(c.d[0], c.k[0]);
    TimesIs(c.d[1], c.k[1]);
    TimesIs(c.d[2], c.k[2]);
    Commute(c.d[0], c.k[0]);
    Commute(c.d[1], c.k[1]);
    Commute(c.d[2], c.k[2]);
  }

  lemma Commute(a: int, b: int)
    ensures a * b == b * a
  {}

  /** The coefficients after a choice: none, or one of them one less, or one more. */
  function Stepped(k: seq<int>, choice: nat): seq<int>
    requires |k| == 3 && choice < 7
  {
    match choice
    case 1 => [k[0] - 1, k[1], k[2]]
    case 2 => [k[0] + 1, k[1], k[2]]
    case 3 => [k[0], k[1] - 1, k[2]]
    case 4 => [k[0], k[1] + 1, k[2]]
    case 5 => [k[0], k[1], k[2] - 1]
    case 6 => [k[0], k[1], k[2] + 1]
    case _ => k
  }

  /** The cost of a choice grows by eight times how far from the byte its coefficients would have predicted. */
  lemma CostsAreErrors(c: Channel, input: byte, choice: nat)
    requires Adapted(c) && choice < 7
    ensures Costs(c.diff, c.d, Signed8(input) * 8)[choice]
      == c.diff[choice] + Abs(Weighed(c, Stepped(c.k, choice)) - Weighed(c, c.k) + 8 * Signed8(input))
  {
    hide Signed8;
    WeighedStep(c, c.k, 0);
    WeighedStep(c, c.k, 1);
    WeighedStep(c, c.k, 2);
    assert c.k[0 := c.k[0] - 1] == Stepped(c.k, 1) && c.k[0 := c.k[0] + 1] == Stepped(c.k, 2);
    assert c.k[1 := c.k[1] - 1] == Stepped(c.k, 3) && c.k[1 := c.k[1] + 1] == Stepped(c.k, 4);
    assert c.k[2 := c.k[2] - 1] == Stepped(c.k, 5) && c.k[2 := c.k[2] + 1] == Stepped(c.k, 6);
  }

  /** The first choice whose cost is least. */
  ghost predicate Cheapest(costs: seq<nat>, choice: nat) {
    choice < |costs|
    && forall j :: 0 <= j < |costs| ==> costs[choice] <= costs[j] && (j < choice ==> costs[choice] < costs[j])
  }

  predicate InRange(k: seq<int>) { forall m :: 0 <= m < |k| ==> -17 <= k[m] <= 16 }

  /** The coefficients after the cheapest choice, unless that leaves the range from -17 to 16. */
  ghost predicate Takes(costs: seq<nat>, k: seq<int>, k': seq<int>, choice: nat)
    requires |k| == 3
  {
    choice < 7 && Cheapest(costs, choice) && k' == if InRange(Stepped(k, choice)) then Stepped(k, choice) else k
  }

  /** At the first byte of a channel and every 32nd after it the coefficients take the cheapest choice, and the costs
      start again; at the others the costs are kept. */
  lemma CoefficientsFollow(inputs: seq<byte>, input: byte)
    ensures var c, after := After(inputs), After(inputs + [input]);
      var costs := Costs(c.diff, c.d, Signed8(input) * 8);
      if |inputs| % 32 == 0 then
        after.diff == [0, 0, 0, 0, 0, 0, 0] && exists choice: nat :: Takes(costs, c.k, after.k, choice)
      else after.k == c.k && after.diff == costs
  {
    hide Predict;
    hide Signed8;
    hide Costs;
    hide Adjusted;
    hide Takes;
    hide After;
    AfterOne(inputs, input);
    var c := After(inputs);
    var costs := Costs(c.diff, c.d, Signed8(input) * 8);
    LeastTaken(costs, c.k);
    assert Takes(costs, c.k, Adjusted(c.k, Least(costs, 7)), Least(costs, 7));
  }

  lemma LeastTaken(costs: seq<nat>, k: seq<int>)
    requires |costs| == 7 && |k| == 3 && InRange(k)
    ensures Takes(costs, k, Adjusted(k, Least(costs, 7)), Least(costs, 7))
  {
    AdjustedSteps(k, Least(costs, 7));
  }

  lemma AdjustedSteps(k: seq<int>, choice: nat)
    requires |k| == 3 && choice < 7 && InRange(k)
    ensures Adjusted(k, choice) == if InRange(Stepped(k, choice)) then Stepped(k, choice) else k
  {
    var m := (choice - 1) / 2;
    if choice > 0 {
      assert Stepped(k, choice) == k[m := k[m] + if choice % 2 == 0 then 1 else -1];
      assert InRange(Stepped(k, choice)) <==> -17 <= Stepped(k, choice)[m] <= 16;
    }
  }
}

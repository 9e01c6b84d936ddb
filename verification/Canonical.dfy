/** The canonical prefix code of section 3.2.2 of RFC 1951: encoding, and decoding one bit at a time. */
module Canonical {
  import opened Machine
  import opened Bits
  import opened BitStrings

  const MAX_LENGTH := 15

  /** The code length of each symbol; 0 for a symbol without a code. */
  type Lengths = s: seq<nat> | forall i :: 0 <= i < |s| ==> s[i] <= MAX_LENGTH

  /** The symbols with codes of length b, in order. */
  function OfLength(lengths: Lengths, b: nat): (r: seq<nat>)
    ensures forall k :: 0 <= k < |r| ==> r[k] < |lengths| && lengths[r[k]] == b
  {
    if lengths == [] then []
    else
      var n := |lengths| - 1;
      OfLength(lengths[..n], b) + (if lengths[n] == b then [n] else [])
  }

  function Count(lengths: Lengths, b: nat): nat {
    if b == 0 then 0 else |OfLength(lengths, b)|
  }

  /** The first code of length b: one more than the last code before it, one bit longer. */
  function NextCode(lengths: Lengths, b: nat): nat {
    if b == 0 then 0 else 2 * (NextCode(lengths, b - 1) + Count(lengths, b - 1))
  }

  /** The codes of length b lie below this number. */
  function CodeEnd(lengths: Lengths, b: nat): nat {
    NextCode(lengths, b) + Count(lengths, b)
  }

  /** The number of symbols with codes shorter than b. */
  function Pos(lengths: Lengths, b: nat): nat {
    if b == 0 then 0 else Pos(lengths, b - 1) + Count(lengths, b - 1)
  }

  /** The code lengths satisfy Kraft's inequality. */
  predicate Kraft(lengths: Lengths) {
    CodeEnd(lengths, MAX_LENGTH) <= Pow2(MAX_LENGTH)
  }

  /** No code is too large for its length. */
  lemma {:induction false} CodesFit(lengths: Lengths, b: nat)
    requires Kraft(lengths) && b <= MAX_LENGTH
    ensures CodeEnd(lengths, b) <= Pow2(b)
    decreases MAX_LENGTH - b
  {
    if b < MAX_LENGTH {
      CodesFit(lengths, b + 1);
    }
  }

  /** How many symbols before s have codes as long as s. */
  function Rank(lengths: Lengths, s: nat): nat
    requires s < |lengths|
  {
    |OfLength(lengths[..s], lengths[s])|
  }

  lemma {:induction false} RankPlaces(lengths: Lengths, s: nat)
    requires s < |lengths|
    ensures Rank(lengths, s) < |OfLength(lengths, lengths[s])|
    ensures OfLength(lengths, lengths[s])[Rank(lengths, s)] == s
  {
    var n := |lengths| - 1;
    if s < n {
      RankPlaces(lengths[..n], s);
      assert lengths[..n][..s] == lengths[..s];
    }
  }

  /** The code of symbol s. */
  function Code(lengths: Lengths, s: nat): (c: seq<Bit>)
    requires s < |lengths|
    ensures |c| == lengths[s]
  {
    ToBits(NextCode(lengths, lengths[s]) + Rank(lengths, s), lengths[s])
  }

  /** What reading a symbol comes to. NoCode holds what follows a prefix that no code begins with. */
  datatype Walked = Found(symbol: nat, bits: nat) | NoCode(value: nat) | TooShort

  /** Read bits until they are a code, knowing that the first b - 1 are not. */
  function Walk(lengths: Lengths, ahead: seq<Bit>, b: nat): (r: Walked)
    requires 1 <= b <= MAX_LENGTH
    requires b - 1 <= |ahead| ==> CodeEnd(lengths, b - 1) <= Num(ahead[..b - 1])
    ensures r.Found? ==>
      r.symbol < |lengths| && b <= r.bits <= MAX_LENGTH && r.bits <= |ahead| && lengths[r.symbol] == r.bits
    ensures r.NoCode? ==> MAX_LENGTH <= |ahead|
    ensures r.TooShort? ==> |ahead| < MAX_LENGTH
    decreases MAX_LENGTH - b
  {
    if |ahead| < b then TooShort
    else
      PrefixGrows(lengths, ahead, b);
      var x := Num(ahead[..b]);
      if x < CodeEnd(lengths, b) then Found(OfLength(lengths, b)[x - NextCode(lengths, b)], b)
      else if b == MAX_LENGTH then NoCode(x)
      else Walk(lengths, ahead, b + 1)
  }

  /** Read a symbol. */
  function WalkOf(lengths: Lengths, ahead: seq<Bit>): (r: Walked)
    ensures r.Found? ==>
      r.symbol < |lengths| && 1 <= r.bits <= MAX_LENGTH && r.bits <= |ahead| && lengths[r.symbol] == r.bits
    ensures r.NoCode? ==> MAX_LENGTH <= |ahead|
    ensures r.TooShort? ==> |ahead| < MAX_LENGTH
  {
    Walk(lengths, ahead, 1)
  }

  /** A prefix past all codes of its length stays past the shorter codes as it grows. */
  lemma PrefixGrows(lengths: Lengths, ahead: seq<Bit>, b: nat)
    requires 1 <= b <= |ahead| && CodeEnd(lengths, b - 1) <= Num(ahead[..b - 1])
    ensures NextCode(lengths, b) <= Num(ahead[..b])
  {
    assert ahead[..b][..b - 1] == ahead[..b - 1];
  }

  /** A prefix of a code is past all codes of the prefix's length. */
  lemma {:induction false} PrefixPast(lengths: Lengths, code: seq<Bit>, j: nat)
    requires j < |code| && NextCode(lengths, |code|) <= Num(code)
    ensures CodeEnd(lengths, j) <= Num(code[..j])
    decreases |code| - j
  {
    if j + 1 < |code| {
      PrefixPast(lengths, code, j + 1);
      assert code[..j + 1][..j] == code[..j];
    }
  }

  lemma CodeValue(lengths: Lengths, s: nat)
    requires Kraft(lengths) && s < |lengths| && lengths[s] > 0
    ensures Num(Code(lengths, s)) == NextCode(lengths, lengths[s]) + Rank(lengths, s) < CodeEnd(lengths, lengths[s])
  {
    hide NextCode;
    hide ToBits;
    hide Num;
    hide OfLength;
    hide Pow2;
    hide Kraft;
    hide Rank;
    RankPlaces(lengths, s);
    CodesFit(lengths, lengths[s]);
    NumToBits(NextCode(lengths, lengths[s]) + Rank(lengths, s), lengths[s]);
  }

  lemma {:induction false} WalkFindsFrom(lengths: Lengths, s: nat, rest: seq<Bit>, b: nat)
    requires Kraft(lengths) && s < |lengths| && 1 <= b <= lengths[s]
    ensures var ahead := Code(lengths, s) + rest;
      CodeEnd(lengths, b - 1) <= Num(ahead[..b - 1]) && Walk(lengths, ahead, b) == Found(s, lengths[s])
    decreases MAX_LENGTH - b
  {
    hide ToBits;
    hide OfLength;
    hide Pow2;
    hide Kraft;
    hide Rank;
    hide Num;
    hide NextCode;
    hide Code;
    var code := Code(lengths, s);
    var ahead := code + rest;
    CodeValue(lengths, s);
    RankPlaces(lengths, s);
    PrefixPast(lengths, code, b - 1);
    assert ahead[..b - 1] == code[..b - 1];
    if b == lengths[s] {
      assert ahead[..b] == code;
    } else {
      PrefixPast(lengths, code, b);
      assert ahead[..b] == code[..b];
      WalkFindsFrom(lengths, s, rest, b + 1);
    }
  }

  /** Reading a code finds its symbol, whatever follows. */
  lemma WalkFinds(lengths: Lengths, s: nat, rest: seq<Bit>)
    requires Kraft(lengths) && s < |lengths| && lengths[s] > 0
    ensures WalkOf(lengths, Code(lengths, s) + rest) == Found(s, lengths[s])
  {
    WalkFindsFrom(lengths, s, rest, 1);
  }

  /** A walk that ends within the bits at hand does not depend on the bits that follow. */
  lemma {:induction false} WalkExtends(lengths: Lengths, ahead: seq<Bit>, more: seq<Bit>, b: nat)
    requires 1 <= b <= MAX_LENGTH
    requires b - 1 <= |ahead| ==> CodeEnd(lengths, b - 1) <= Num(ahead[..b - 1])
    requires !Walk(lengths, ahead, b).TooShort?
    ensures b - 1 <= |ahead + more| ==> CodeEnd(lengths, b - 1) <= Num((ahead + more)[..b - 1])
    ensures Walk(lengths, ahead + more, b) == Walk(lengths, ahead, b)
    decreases MAX_LENGTH - b
  {
    hide Num;
    hide CodeEnd;
    hide OfLength;
    assert (ahead + more)[..b - 1] == ahead[..b - 1];
    assert (ahead + more)[..b] == ahead[..b];
    PrefixGrows(lengths, ahead, b);
    if !(Num(ahead[..b]) < CodeEnd(lengths, b)) && b < MAX_LENGTH {
      WalkExtends(lengths, ahead, more, b + 1);
    }
  }

  /** A walk that finds a code looks at no bit past it. */
  lemma {:induction false} WalkLocal(lengths: Lengths, ahead: seq<Bit>, other: seq<Bit>, n: nat, b: nat)
    requires 1 <= b <= MAX_LENGTH && n <= |ahead| && n <= |other| && ahead[..n] == other[..n]
    requires b - 1 <= |ahead| ==> CodeEnd(lengths, b - 1) <= Num(ahead[..b - 1])
    requires Walk(lengths, ahead, b).Found? && Walk(lengths, ahead, b).bits <= n
    ensures b - 1 <= |other| ==> CodeEnd(lengths, b - 1) <= Num(other[..b - 1])
    ensures Walk(lengths, other, b) == Walk(lengths, ahead, b)
    decreases MAX_LENGTH - b
  {
    hide Num;
    hide CodeEnd;
    hide OfLength;
    assert ahead[..b - 1] == ahead[..n][..b - 1] && other[..b - 1] == other[..n][..b - 1];
    assert ahead[..b] == ahead[..n][..b] && other[..b] == other[..n][..b];
    PrefixGrows(lengths, ahead, b);
    if !(Num(ahead[..b]) < CodeEnd(lengths, b)) {
      WalkLocal(lengths, ahead, other, n, b + 1);
    }
  }

  /** No prefix of ahead shorter than b is a code, nor begins past one. */
  ghost predicate Past(lengths: Lengths, ahead: seq<Bit>, b: nat) {
    b <= |ahead| + 1 && forall j: nat | j < b :: CodeEnd(lengths, j) <= Num(ahead[..j])
  }

  /** A walk reaches every length whose shorter prefixes are not codes. */
  lemma {:induction false} WalkReaches(lengths: Lengths, ahead: seq<Bit>, b: nat)
    requires 1 <= b <= MAX_LENGTH && Past(lengths, ahead, b)
    ensures WalkOf(lengths, ahead) == Walk(lengths, ahead, b)
  {
    if b > 1 {
      WalkReaches(lengths, ahead, b - 1);
      assert CodeEnd(lengths, b - 1) <= Num(ahead[..b - 1]);
    }
  }

  /** A walk ends at the first length at which the prefix falls among the codes. */
  lemma {:induction false} WalkWithin(lengths: Lengths, ahead: seq<Bit>, n: nat, b: nat)
    requires 1 <= b <= n <= |ahead| && n <= MAX_LENGTH && Num(ahead[..n]) < CodeEnd(lengths, n)
    requires CodeEnd(lengths, b - 1) <= Num(ahead[..b - 1])
    ensures Walk(lengths, ahead, b).Found? && Walk(lengths, ahead, b).bits <= n
    decreases n - b
  {
    hide CodeEnd;
    hide NextCode;
    hide OfLength;
    hide Num;
    PrefixGrows(lengths, ahead, b);
    if !(Num(ahead[..b]) < CodeEnd(lengths, b)) {
      WalkWithin(lengths, ahead, n, b + 1);
    }
  }

  /** The codes of symbols, one after another. */
  function EncodeAll(lengths: Lengths, symbols: seq<nat>): seq<Bit>
    requires forall i :: 0 <= i < |symbols| ==> symbols[i] < |lengths|
  {
    if symbols == [] then [] else Code(lengths, symbols[0]) + EncodeAll(lengths, symbols[1..])
  }

  // Where the codes lie.

  /** Of 2^15 places, how many the codes take that are shorter than b bits, or as long and of a symbol before s. */
  function PlacesBefore(lengths: Lengths, b: nat, s: nat): nat {
    if lengths == [] then 0
    else
      var n := |lengths| - 1;
      var k := lengths[n];
      PlacesBefore(lengths[..n], b, s) + if 0 < k && (k < b || (k == b && n < s)) then Pow2(MAX_LENGTH - k) else 0
  }

  lemma {:induction false} NextCodeGrows(lengths: Lengths, n: nat, b: nat)
    requires n + 1 == |lengths| && b <= MAX_LENGTH
    ensures var k := lengths[n];
      NextCode(lengths, b) * Pow2(MAX_LENGTH - b)
        == NextCode(lengths[..n], b) * Pow2(MAX_LENGTH - b) + if 0 < k < b then Pow2(MAX_LENGTH - k) else 0
    decreases b
  {
    hide OfLength;
    hide Pow2;
    hide NextCode;
    hide Count;
    NextCodeStep(lengths, b);
    NextCodeStep(lengths[..n], b);
    if b > 0 {
      NextCodeGrows(lengths, n, b - 1);
      CountGrows(lengths, n, b - 1);
      var p := Pow2(MAX_LENGTH - b);
      DoublePower(MAX_LENGTH - b);
      DoubleSum(NextCode(lengths, b - 1), Count(lengths, b - 1), p);
      DoubleSum(NextCode(lengths[..n], b - 1), Count(lengths[..n], b - 1), p);
      SumTimes(Count(lengths[..n], b - 1), 1, 2 * p);
    }
  }

  lemma NextCodeStep(lengths: Lengths, b: nat)
    ensures NextCode(lengths, b) == if b == 0 then 0 else 2 * (NextCode(lengths, b - 1) + Count(lengths, b - 1))
  {
    hide OfLength;
  }

  lemma DoublePower(k: nat)
    ensures Pow2(k + 1) == 2 * Pow2(k)
  {}

  lemma CountGrows(lengths: Lengths, n: nat, b: nat)
    requires n + 1 == |lengths|
    ensures Count(lengths, b) == Count(lengths[..n], b) + if b > 0 && lengths[n] == b then 1 else 0
  {}

  lemma DoubleSum(x: int, y: int, p: int)
    ensures 2 * (x + y) * p == x * (2 * p) + y * (2 * p)
  {}

  lemma {:induction false} PlacesAre(lengths: Lengths, b: nat, s: nat)
    requires 1 <= b <= MAX_LENGTH
    ensures PlacesBefore(lengths, b, s)
      == (NextCode(lengths, b) + |OfLength(lengths[..Min(s, |lengths|)], b)|) * Pow2(MAX_LENGTH - b)
    decreases |lengths|
  {
    hide Pow2;
    hide NextCode;
    var p := Pow2(MAX_LENGTH - b);
    if lengths == [] {
      NoCodes(b);
    } else {
      var n := |lengths| - 1;
      PlacesAre(lengths[..n], b, s);
      NextCodeGrows(lengths, n, b);
      var before, now := OfLength(lengths[..n][..Min(s, n)], b), OfLength(lengths[..Min(s, n + 1)], b);
      if s <= n {
        assert lengths[..n][..s] == lengths[..s];
      } else {
        assert lengths[..n][..n] == lengths[..n] && lengths[..n + 1] == lengths;
      }
      SumTimes(NextCode(lengths, b), |now|, p);
      SumTimes(NextCode(lengths[..n], b), |before|, p);
      SumTimes(|before|, 1, p);
    }
  }

  lemma {:induction false} NoCodes(b: nat)
    ensures NextCode([], b) == 0
  {
    hide Count;
    hide OfLength;
    NextCodeStep([], b);
    if b > 0 {
      NoCodes(b - 1);
      NoSymbols(b - 1);
    }
  }

  lemma NoSymbols(b: nat)
    ensures Count([], b) == 0
  {}

  lemma SumTimes(x: int, y: int, p: int)
    ensures (x + y) * p == x * p + y * p
  {}

  /** Every code begins where those before it end: the shorter ones, and of its length those of the symbols before
      it. */
  lemma CodePlace(lengths: Lengths, s: nat)
    requires Kraft(lengths) && s < |lengths| && lengths[s] > 0
    ensures Num(Code(lengths, s)) * Pow2(MAX_LENGTH - lengths[s]) == PlacesBefore(lengths, lengths[s], s)
  {
    hide Code;
    hide NextCode;
    hide OfLength;
    CodeValue(lengths, s);
    PlacesAre(lengths, lengths[s], s);
  }
}

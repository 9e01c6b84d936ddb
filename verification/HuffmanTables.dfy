/** The numbers a Huffman decoder's tables hold, and what comparing with them says about the canonical code. */
module HuffmanTables {
  import opened Machine
  import opened Bits
  import opened BitStrings
  import opened Canonical

  const MAX_SYMBOLS := 0xFFFF

  /** One number for each code length. */
  type Table = s: seq<nat> | |s| == MAX_LENGTH + 1 witness [0, 0, 0, 0, 0, 0, 0, 0, 0, 0, 0, 0, 0, 0, 0, 0]

  /** The end of the codes of length b, in units of the longest codes. */
  function Limit(lengths: Lengths, b: nat): nat
    requires b <= MAX_LENGTH
  {
    CodeEnd(lengths, b) * Pow2(MAX_LENGTH - b)
  }

  /** Each limit follows from the one before by adding the codes of one length. */
  lemma LimitGrows(lengths: Lengths, b: nat)
    requires 1 <= b <= MAX_LENGTH
    ensures Limit(lengths, b) == Limit(lengths, b - 1) + Count(lengths, b) * Pow2(MAX_LENGTH - b)
  {
    Spread(CodeEnd(lengths, b - 1), Count(lengths, b), Pow2(MAX_LENGTH - b));
  }

  lemma Spread(e: int, c: int, p: int)
    ensures (2 * e + c) * p == e * (2 * p) + c * p
  {}

  /** Without Kraft's inequality the limits may not fit; with it they do. */
  lemma LimitFits(lengths: Lengths, b: nat)
    requires Kraft(lengths) && b <= MAX_LENGTH
    ensures Limit(lengths, b) <= 0x8000 && Wrap16(Limit(lengths, b)) == Limit(lengths, b)
  {
    hide CodeEnd;
    hide Kraft;
    CodesFit(lengths, b);
    Pow2Add(b, MAX_LENGTH - b);
    Pow2Values();
    Grown(CodeEnd(lengths, b), Pow2(b), Pow2(MAX_LENGTH - b));
    Wrap16Small(Limit(lengths, b));
  }

  lemma Grown(a: int, b: int, p: int)
    requires a <= b && p >= 0
    ensures a * p <= b * p
  {}

  /** Comparing x, extended by low bits, with e, extended by zeros. */
  lemma Compared(x: int, low: int, p: int, e: int)
    requires 0 <= low < p
    ensures x * p + low < e * p <==> x < e
  {
    if x < e {
      Gap(x, e, p);
    } else {
      Grown(e, x, p);
    }
  }

  lemma Distance(x: int, low: int, p: int, n: int)
    requires 0 <= low < p && n <= x
    ensures n * p <= x * p + low && (x * p + low - n * p) / p == x - n
  {
    Grown(n, x, p);
    assert x * p + low - n * p == (x - n) * p + low;
    DivModUnique(x * p + low - n * p, x - n, p, low);
  }

  /** A number that begins with the bits of x: x, then MAX_LENGTH - b bits that make low. */
  function Begun(x: nat, low: nat, b: nat): nat
    requires b <= MAX_LENGTH
  {
    x * Pow2(MAX_LENGTH - b) + low
  }

  /** Comparing such a number with a limit compares its beginning with the codes of one length,
      and its distance from the limit before counts those codes. */
  lemma AtLength(lengths: Lengths, x: nat, low: nat, b: nat)
    requires 1 <= b <= MAX_LENGTH && low < Pow2(MAX_LENGTH - b)
    ensures Begun(x, low, b) < Limit(lengths, b) <==> x < CodeEnd(lengths, b)
    ensures NextCode(lengths, b) <= x ==> Limit(lengths, b - 1) <= Begun(x, low, b)
    ensures NextCode(lengths, b) <= x ==>
      (Begun(x, low, b) - Limit(lengths, b - 1)) / Pow2(MAX_LENGTH - b) == x - NextCode(lengths, b)
  {
    var p := Pow2(MAX_LENGTH - b);
    Compared(x, low, p, CodeEnd(lengths, b));
    Spread(CodeEnd(lengths, b - 1), 0, p);
    assert Limit(lengths, b - 1) == NextCode(lengths, b) * p;
    if NextCode(lengths, b) <= x {
      Distance(x, low, p, NextCode(lengths, b));
    }
  }

  /** The first 15 bits as a number, seen from its first b bits. */
  lemma Beginning(ahead: seq<Bit>, b: nat) returns (low: nat)
    requires b <= MAX_LENGTH <= |ahead|
    ensures low < Pow2(MAX_LENGTH - b) && Num(ahead[..MAX_LENGTH]) == Begun(Num(ahead[..b]), low, b)
  {
    var tail := ahead[b..MAX_LENGTH];
    assert ahead[..MAX_LENGTH] == ahead[..b] + tail;
    NumConcat(ahead[..b], tail);
    low := Num(tail);
  }

  /** A walk that has passed the codes shorter than b, told from the number v its bits begin. */
  lemma Resolved(lengths: Lengths, ahead: seq<Bit>, v: nat, low: nat, b: nat) returns (k: nat)
    requires 1 <= b <= MAX_LENGTH && b <= |ahead| && Past(lengths, ahead, b)
    requires low < Pow2(MAX_LENGTH - b) && v == Begun(Num(ahead[..b]), low, b)
    ensures Limit(lengths, b - 1) <= v && k == (v - Limit(lengths, b - 1)) / Pow2(MAX_LENGTH - b)
    ensures v < Limit(lengths, b) ==>
      k < |OfLength(lengths, b)| && WalkOf(lengths, ahead) == Found(OfLength(lengths, b)[k], b)
    ensures v >= Limit(lengths, b) ==> k >= Count(lengths, b) && Past(lengths, ahead, b + 1)
    ensures v >= Limit(lengths, b) && b == MAX_LENGTH ==> WalkOf(lengths, ahead) == NoCode(v)
  {
    hide OfLength;
    hide Num;
    hide Limit;
    var x := Num(ahead[..b]);
    assert CodeEnd(lengths, b - 1) <= Num(ahead[..b - 1]);
    PrefixGrows(lengths, ahead, b);
    AtLength(lengths, x, low, b);
    WalkReaches(lengths, ahead, b);
    k := x - NextCode(lengths, b);
  }

  /** Looking for the first limit above v finds the length of the code that v's bits begin with. */
  lemma {:induction false} Scanned(lengths: Lengths, ahead: seq<Bit>, v: nat, b: nat)
    requires 1 <= b <= MAX_LENGTH <= |ahead| && v == Num(ahead[..MAX_LENGTH])
    requires forall j: nat | j < b :: Limit(lengths, j) <= v
    ensures Past(lengths, ahead, b)
  {
    hide Limit;
    hide Num;
    hide CodeEnd;
    hide Pow2;
    forall j: nat | j < b ensures CodeEnd(lengths, j) <= Num(ahead[..j]) {
      if j > 0 {
        var low := Beginning(ahead, j);
        AtLength(lengths, Num(ahead[..j]), low, j);
      } else {
        NoCodesOfLengthZero(lengths);
      }
    }
  }

  lemma NoCodesOfLengthZero(lengths: Lengths)
    ensures CodeEnd(lengths, 0) == 0
  {}

  /** Every 15 bits begin with a code exactly when the codes fill Kraft's inequality (or overfill it). */
  lemma CompleteCode(lengths: Lengths)
    ensures CodeEnd(lengths, MAX_LENGTH) >= Pow2(MAX_LENGTH) <==>
      forall ahead: seq<Bit> | |ahead| == MAX_LENGTH :: WalkOf(lengths, ahead).Found?
  {
    hide CodeEnd;
    hide Pow2;
    if CodeEnd(lengths, MAX_LENGTH) >= Pow2(MAX_LENGTH) {
      forall ahead: seq<Bit> | |ahead| == MAX_LENGTH ensures WalkOf(lengths, ahead).Found? {
        NoCodesOfLengthZero(lengths);
        assert ahead[..MAX_LENGTH] == ahead;
        assert Num(ahead) < Pow2(|ahead|);
        WalkWithin(lengths, ahead, MAX_LENGTH, 1);
      }
    } else {
      FirstUnused(lengths);
      assert !WalkOf(lengths, ToBits(CodeEnd(lengths, MAX_LENGTH), MAX_LENGTH)).Found?;
    }
  }

  /** The number after the last code begins no code. */
  lemma FirstUnused(lengths: Lengths)
    requires CodeEnd(lengths, MAX_LENGTH) < Pow2(MAX_LENGTH)
    ensures WalkOf(lengths, ToBits(CodeEnd(lengths, MAX_LENGTH), MAX_LENGTH)) == NoCode(CodeEnd(lengths, MAX_LENGTH))
  {
    hide Pow2;
    hide ToBits;
    hide Num;
    hide OfLength;
    var x := CodeEnd(lengths, MAX_LENGTH);
    var ahead := ToBits(x, MAX_LENGTH);
    NumToBits(x, MAX_LENGTH);
    forall j: nat | j < MAX_LENGTH ensures CodeEnd(lengths, j) <= Num(ahead[..j]) {
      PrefixPast(lengths, ahead, j);
    }
    assert ahead[..MAX_LENGTH] == ahead;
    WalkReaches(lengths, ahead, MAX_LENGTH);
  }

  /** The index of the quick table that stands for the bits i, with the bits that are not looked at zero. */
  function Padded(i: nat, q: nat): (s: seq<Bit>)
    requires q <= MAX_LENGTH
    ensures |s| == MAX_LENGTH
  {
    ToBits(i, q) + ToBits(0, MAX_LENGTH - q)
  }

  lemma PaddedNum(i: nat, q: nat)
    requires q <= MAX_LENGTH && i < Pow2(q)
    ensures Num(Padded(i, q)) == i * Pow2(MAX_LENGTH - q)
  {
    NumToBits(i, q);
    NumToBits(0, MAX_LENGTH - q);
    NumConcat(ToBits(i, q), ToBits(0, MAX_LENGTH - q));
  }

  /** When a code of at most q bits lies ahead, looking up the first q bits alone finds it. */
  lemma QuickFinds(lengths: Lengths, ahead: seq<Bit>, v: nat, q: nat) returns (i: nat)
    requires 1 <= q <= MAX_LENGTH <= |ahead| && v == Num(ahead[..MAX_LENGTH]) && v < Limit(lengths, q)
    ensures i == Shr(v, MAX_LENGTH - q) && i < Pow2(q)
    ensures WalkOf(lengths, Padded(i, q)) == WalkOf(lengths, ahead) && WalkOf(lengths, ahead).Found?
    ensures WalkOf(lengths, ahead).bits <= q
  {
    hide Limit;
    hide CodeEnd;
    hide Walk;
    var low := Beginning(ahead, q);
    i := Num(ahead[..q]);
    DivModUnique(v, i, Pow2(MAX_LENGTH - q), low);
    ShrDivides(v, MAX_LENGTH - q);
    AtLength(lengths, i, low, q);
    NoCodesOfLengthZero(lengths);
    WalkWithin(lengths, ahead, q, 1);
    ToBitsNum(ahead[..q]);
    assert Padded(i, q)[..q] == ahead[..q];
    WalkLocal(lengths, ahead, Padded(i, q), q, 1);
  }

  /** A list stands in the table from a place on. */
  ghost predicate Stands(symbol: seq<nat>, at: nat, list: seq<nat>) {
    at + |list| <= |symbol| && symbol[at..at + |list|] == list
  }

  /** At the places of each length the symbols that have codes of that length, as far as `some` of the lengths tell;
      then zeros. */
  ghost predicate ListedSome(lengths: Lengths, some: Lengths, symbol: seq<nat>) {
    && |symbol| == |lengths|
    && (forall b: nat | 1 <= b <= MAX_LENGTH :: Stands(symbol, Pos(lengths, b), OfLength(some, b)))
    && forall j :: Pos(lengths, MAX_LENGTH + 1) <= j < |symbol| ==> symbol[j] == 0
  }

  /** The symbols with codes, the shorter codes first, and then zeros. */
  ghost predicate Listed(lengths: Lengths, symbol: seq<nat>) {
    ListedSome(lengths, lengths, symbol)
  }

  lemma CountCounts(lengths: Lengths, b: nat)
    requires lengths != []
    ensures var n := |lengths| - 1;
      Count(lengths, b) == Count(lengths[..n], b) + if b > 0 && lengths[n] == b then 1 else 0
  {}

  lemma {:induction false} PosCounts(lengths: Lengths, b: nat)
    requires lengths != []
    ensures var n := |lengths| - 1;
      Pos(lengths, b) == Pos(lengths[..n], b) + if 1 <= lengths[n] < b then 1 else 0
  {
    hide OfLength;
    hide Count;
    if b > 0 {
      CountCounts(lengths, b - 1);
      PosCounts(lengths, b - 1);
    }
  }

  lemma CountNone(lengths: Lengths, b: nat)
    requires lengths == []
    ensures Count(lengths, b) == 0
  {}

  lemma {:induction false} PosNone(lengths: Lengths, b: nat)
    requires lengths == []
    ensures Pos(lengths, b) == 0
  {
    hide OfLength;
    if b > 0 {
      CountNone(lengths, b - 1);
      PosNone(lengths, b - 1);
    }
  }

  /** No more symbols have codes than there are. */
  lemma {:induction false} PosFits(lengths: Lengths, b: nat)
    ensures Pos(lengths, b) <= |lengths|
  {
    if lengths == [] {
      PosNone(lengths, b);
    } else {
      PosCounts(lengths, b);
      PosFits(lengths[..|lengths| - 1], b);
    }
  }

  /** The symbols with codes are all symbols exactly when every length is positive. */
  lemma {:induction false} PosIsAll(lengths: Lengths)
    ensures Pos(lengths, MAX_LENGTH + 1) == |lengths| <==> forall s :: 0 <= s < |lengths| ==> lengths[s] > 0
  {
    var b := MAX_LENGTH + 1;
    if lengths == [] {
      PosNone(lengths, b);
    } else {
      var n := |lengths| - 1;
      PosCounts(lengths, b);
      PosFits(lengths[..n], b);
      PosIsAll(lengths[..n]);
      assert forall s :: 0 <= s < n ==> lengths[..n][s] == lengths[s];
    }
  }

  lemma {:induction false} PosGrows(lengths: Lengths, b: nat, c: nat)
    requires b < c
    ensures Pos(lengths, b) + Count(lengths, b) <= Pos(lengths, c)
  {
    if b + 1 < c {
      PosGrows(lengths, b, c - 1);
    }
  }

  lemma {:induction false} CountFits(lengths: Lengths, b: nat)
    ensures |OfLength(lengths, b)| <= |lengths|
  {
    if lengths != [] {
      CountFits(lengths[..|lengths| - 1], b);
    }
  }

  /** The symbols of length b among the first i begin the symbols of length b among all. */
  lemma {:induction false} OfLengthPrefix(lengths: Lengths, i: nat, b: nat)
    requires i <= |lengths|
    ensures OfLength(lengths[..i], b) <= OfLength(lengths, b)
  {
    if i == |lengths| {
      assert lengths[..i] == lengths;
    } else {
      var n := |lengths| - 1;
      OfLengthPrefix(lengths[..n], i, b);
      assert lengths[..n][..i] == lengths[..i];
    }
  }

  lemma OfLengthNext(lengths: Lengths, i: nat, b: nat)
    requires i < |lengths|
    ensures OfLength(lengths[..i + 1], b) == OfLength(lengths[..i], b) + if lengths[i] == b then [i] else []
  {
    assert lengths[..i + 1][..i] == lengths[..i];
  }

  /** A decoder's tables are those of the code: the limits as far as 16 bits hold them. */
  ghost predicate Tabled(lengths: Lengths, limit: Table, pos: Table, symbol: seq<nat>) {
    && Listed(lengths, symbol)
    && (forall b: nat | b <= MAX_LENGTH :: limit[b] == Wrap16(Limit(lengths, b)))
    && forall b: nat | b <= MAX_LENGTH :: pos[b] == Pos(lengths, b)
  }

  lemma TabledAt(lengths: Lengths, limit: Table, pos: Table, symbol: seq<nat>, b: nat)
    requires Tabled(lengths, limit, pos, symbol) && b <= MAX_LENGTH
    ensures limit[b] == Wrap16(Limit(lengths, b)) && pos[b] == Pos(lengths, b)
    ensures Kraft(lengths) ==> limit[b] == Limit(lengths, b) <= 0x8000
  {
    hide Limit;
    hide Kraft;
    hide Pos;
    hide Listed;
    if Kraft(lengths) {
      LimitFits(lengths, b);
    }
  }

  lemma ListedAt(lengths: Lengths, symbol: seq<nat>, b: nat, k: nat)
    requires Listed(lengths, symbol) && 1 <= b <= MAX_LENGTH && k < |OfLength(lengths, b)|
    ensures Pos(lengths, b) + k < |symbol| && symbol[Pos(lengths, b) + k] == OfLength(lengths, b)[k]
  {
    hide OfLength;
    hide Pos;
    assert Stands(symbol, Pos(lengths, b), OfLength(lengths, b));
    assert OfLength(lengths, b)[k] == symbol[Pos(lengths, b)..Pos(lengths, b) + |OfLength(lengths, b)|][k];
  }

  /** Where the tables send v once the length b is known. */
  function Place(limit: Table, pos: Table, v: int, b: nat): nat
    requires 1 <= b <= MAX_LENGTH
  {
    pos[b] + Shr(Wrap16(v - limit[b - 1]), MAX_LENGTH - b)
  }

  lemma PlaceIs(limit: Table, pos: Table, v: int, b: nat)
    requires 1 <= b <= MAX_LENGTH
    ensures Place(limit, pos, v, b) == pos[b] + Shr(Wrap16(v - limit[b - 1]), MAX_LENGTH - b)
  {}

  /** Past the shorter codes, the tables give the walk's answer. */
  lemma LookedUp(lengths: Lengths, limit: Table, pos: Table, symbol: seq<nat>,
                 ahead: seq<Bit>, v: nat, low: nat, b: nat)
    requires Kraft(lengths) && Tabled(lengths, limit, pos, symbol)
    requires 1 <= b <= MAX_LENGTH && b <= |ahead| && Past(lengths, ahead, b)
    requires low < Pow2(MAX_LENGTH - b) && v == Begun(Num(ahead[..b]), low, b) && v < 0x8000
    ensures v < limit[b] ==>
      Place(limit, pos, v, b) < |symbol| && WalkOf(lengths, ahead) == Found(symbol[Place(limit, pos, v, b)], b)
    ensures v >= limit[b] ==> Past(lengths, ahead, b + 1)
    ensures v >= limit[b] && b == MAX_LENGTH ==>
      Missed(lengths, symbol, Place(limit, pos, v, b), WalkOf(lengths, ahead))
  {
    hide OfLength;
    hide Listed;
    hide Place;
    hide Missed;
    hide NextCode;
    hide CodeEnd;
    hide Num;
    hide Limit;
    hide Kraft;
    hide WalkOf;
    hide Past;
    hide Tabled;
    hide Pow2;
    hide Begun;
    TabledAt(lengths, limit, pos, symbol, b);
    TabledAt(lengths, limit, pos, symbol, b - 1);
    assert Listed(lengths, symbol) by { TabledLists(lengths, limit, pos, symbol); }
    var k := Resolved(lengths, ahead, v, low, b);
    Wrap16Small(v - limit[b - 1]);
    ShrDivides(v - limit[b - 1], MAX_LENGTH - b);
    PlaceIs(limit, pos, v, b);
    assert Place(limit, pos, v, b) == Pos(lengths, b) + k;
    if v < limit[b] {
      ListedAt(lengths, symbol, b, k);
    } else if b == MAX_LENGTH {
      MissedAt(lengths, symbol, v, k);
    }
  }

  lemma TabledLists(lengths: Lengths, limit: Table, pos: Table, symbol: seq<nat>)
    requires Tabled(lengths, limit, pos, symbol)
    ensures Listed(lengths, symbol)
  {
    hide Listed;
  }

  /** The walk found no code, and the place is past the symbols that have one. */
  ghost predicate Missed(lengths: Lengths, symbol: seq<nat>, place: nat, w: Walked) {
    && w.NoCode? && place == MissPlace(lengths, w.value)
    && (place < |symbol| ==> symbol[place] == 0)
  }

  /** The place in the symbol table that a prefix without a code leads to. */
  function MissPlace(lengths: Lengths, x: nat): int {
    Pos(lengths, MAX_LENGTH) + x - NextCode(lengths, MAX_LENGTH)
  }

  /** A walk that finds no code ends past the codes, and so past the symbols that have one. */
  lemma MissPlaceFits(lengths: Lengths, ahead: seq<Bit>)
    requires WalkOf(lengths, ahead).NoCode?
    ensures MissPlace(lengths, WalkOf(lengths, ahead).value) >= 0
  {
    hide Num;
    NoCodePast(lengths, ahead, 1);
  }

  lemma {:induction false} NoCodePast(lengths: Lengths, ahead: seq<Bit>, b: nat)
    requires 1 <= b <= MAX_LENGTH
    requires b - 1 <= |ahead| ==> CodeEnd(lengths, b - 1) <= Num(ahead[..b - 1])
    requires Walk(lengths, ahead, b).NoCode?
    ensures CodeEnd(lengths, MAX_LENGTH) <= Walk(lengths, ahead, b).value
    decreases MAX_LENGTH - b
  {
    PrefixGrows(lengths, ahead, b);
    if b < MAX_LENGTH {
      NoCodePast(lengths, ahead, b + 1);
    }
  }

  lemma MissedNone(lengths: Lengths, symbol: seq<nat>, place: nat, w: Walked)
    ensures Missed(lengths, symbol, place, w) ==> w.NoCode?
  {}

  lemma MissedAt(lengths: Lengths, symbol: seq<nat>, v: nat, k: nat)
    requires Listed(lengths, symbol) && k >= Count(lengths, MAX_LENGTH)
    requires Limit(lengths, MAX_LENGTH - 1) <= v && k == (v - Limit(lengths, MAX_LENGTH - 1)) / Pow2(0)
    ensures Missed(lengths, symbol, Pos(lengths, MAX_LENGTH) + k, NoCode(v))
  {
    hide OfLength;
    hide CodeEnd;
    assert Pow2(0) == 1 && Pow2(1) == 2;
    assert NextCode(lengths, MAX_LENGTH) == 2 * CodeEnd(lengths, MAX_LENGTH - 1) by { NextIsDouble(lengths); }
    assert Pos(lengths, MAX_LENGTH + 1) == Pos(lengths, MAX_LENGTH) + Count(lengths, MAX_LENGTH);
  }

  lemma NextIsDouble(lengths: Lengths)
    ensures NextCode(lengths, MAX_LENGTH) == 2 * CodeEnd(lengths, MAX_LENGTH - 1)
  {}

  /** The same, when all the bits of the longest codes are at hand and b was found by scanning the limits. */
  lemma ScanLooksUp(lengths: Lengths, limit: Table, pos: Table, symbol: seq<nat>, ahead: seq<Bit>, v: nat, b: nat)
    requires Kraft(lengths) && Tabled(lengths, limit, pos, symbol)
    requires 1 <= b <= MAX_LENGTH <= |ahead| && v == Num(ahead[..MAX_LENGTH])
    requires (forall j: nat | j < b :: limit[j] <= v) && (v < limit[b] || b == MAX_LENGTH)
    ensures v < limit[b] ==>
      Place(limit, pos, v, b) < |symbol| && WalkOf(lengths, ahead) == Found(symbol[Place(limit, pos, v, b)], b)
    ensures v >= limit[b] ==>
      b == MAX_LENGTH && Missed(lengths, symbol, Place(limit, pos, v, b), WalkOf(lengths, ahead))
  {
    hide OfLength;
    hide Num;
    hide Limit;
    hide Kraft;
    hide WalkOf;
    hide Past;
    hide Tabled;
    hide Missed;
    hide Place;
    hide Begun;
    Pow2Values();
    forall j: nat | j < b ensures Limit(lengths, j) <= v {
      assert limit[j] <= v;
      TabledAt(lengths, limit, pos, symbol, j);
    }
    Scanned(lengths, ahead, v, b);
    var low := Beginning(ahead, b);
    LookedUp(lengths, limit, pos, symbol, ahead, v, low, b);
  }
}

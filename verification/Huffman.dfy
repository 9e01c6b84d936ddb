/** The table-driven Huffman decoder: a quick table, a scan of limits, and single bits at the end of the input. */
module Huffman {
  import opened Machine
  import opened Bits
  import opened BitStrings
  import opened Canonical
  import opened HuffmanTables
  import opened BitReaders

  const QUICK_SIZE := 1024
  const MANY_SYMBOLS := 298

  /** A symbol, or: no code begins like this, the bits end, or the data ends before the bits should. */
  datatype SymResult = Symbol(value: nat) | NoSymbol | EndOfBits | EndOfData

  /** What reading a symbol comes to, and how many bits it takes, for a code that satisfies Kraft's inequality.
      A prefix that no code begins with still reads as symbol 0 when enough symbols are without a code. */
  function Reading(lengths: Lengths, ahead: seq<Bit>, truncated: bool): (SymResult, nat) {
    if |ahead| < MAX_LENGTH && truncated then (EndOfData, 0)
    else
      match WalkOf(lengths, ahead)
      case Found(symbol, bits) => (Symbol(symbol), bits)
      case TooShort => (EndOfBits, |ahead|)
      case NoCode(x) => (if MissPlace(lengths, x) < |lengths| then Symbol(0) else NoSymbol, MAX_LENGTH)
  }

  lemma ReadingBounds(lengths: Lengths, ahead: seq<Bit>, truncated: bool)
    ensures var (res, used) := Reading(lengths, ahead, truncated);
      used <= |ahead| && (res.Symbol? ==> res.value < |lengths| && used >= 1)
  {
    if |ahead| >= MAX_LENGTH || !truncated {
      var w := WalkOf(lengths, ahead);
      if w.NoCode? { MissPlaceFits(lengths, ahead); }
    }
  }

  /** A code refuses all prefixes that it does not use exactly when it uses all of them or gives every symbol a code. */
  lemma RefusesUnused(lengths: Lengths, truncated: bool)
    ensures (forall ahead: seq<Bit> | WalkOf(lengths, ahead).NoCode? ::
        Reading(lengths, ahead, truncated) == (NoSymbol, MAX_LENGTH))
      <==> CodeEnd(lengths, MAX_LENGTH) >= Pow2(MAX_LENGTH) || forall s :: 0 <= s < |lengths| ==> lengths[s] > 0
  {
    hide CodeEnd;
    hide WalkOf;
    hide Pow2;
    hide Pos;
    PosIsAll(lengths);
    PosFits(lengths, MAX_LENGTH + 1);
    if CodeEnd(lengths, MAX_LENGTH) >= Pow2(MAX_LENGTH) {
      forall ahead: seq<Bit> | WalkOf(lengths, ahead).NoCode? ensures false {
        NoUnused(lengths, ahead);
      }
    } else if Pos(lengths, MAX_LENGTH + 1) == |lengths| {
      forall ahead: seq<Bit> | WalkOf(lengths, ahead).NoCode?
        ensures Reading(lengths, ahead, truncated) == (NoSymbol, MAX_LENGTH) {
        MissesCoded(lengths, ahead);
      }
    } else {
      UnusedReadsZero(lengths, truncated);
      FirstUnused(lengths);
    }
  }

  /** Otherwise the first prefix that is not used reads as symbol 0. */
  lemma UnusedReadsZero(lengths: Lengths, truncated: bool)
    requires CodeEnd(lengths, MAX_LENGTH) < Pow2(MAX_LENGTH) && Pos(lengths, MAX_LENGTH + 1) < |lengths|
    ensures Reading(lengths, ToBits(CodeEnd(lengths, MAX_LENGTH), MAX_LENGTH), truncated) == (Symbol(0), MAX_LENGTH)
  {
    hide Pow2;
    hide WalkOf;
    hide NextCode;
    hide Count;
    FirstUnused(lengths);
  }

  lemma NoUnused(lengths: Lengths, ahead: seq<Bit>)
    requires CodeEnd(lengths, MAX_LENGTH) >= Pow2(MAX_LENGTH)
    ensures !WalkOf(lengths, ahead).NoCode?
  {
    hide CodeEnd;
    hide Pow2;
    hide Num;
    if WalkOf(lengths, ahead).NoCode? {
      NoCodesOfLengthZero(lengths);
      assert Num(ahead[..MAX_LENGTH]) < Pow2(|ahead[..MAX_LENGTH]|);
      WalkWithin(lengths, ahead, MAX_LENGTH, 1);
    }
  }

  /** A prefix that is not used leads past the symbols that have codes. */
  lemma MissesCoded(lengths: Lengths, ahead: seq<Bit>)
    requires WalkOf(lengths, ahead).NoCode?
    ensures MissPlace(lengths, WalkOf(lengths, ahead).value) >= Pos(lengths, MAX_LENGTH + 1)
  {
    hide Num;
    NoCodesOfLengthZero(lengths);
    NoCodePast(lengths, ahead, 1);
  }

  /** Read a symbol: what it comes to, and the bits left. */
  function ReadCode(lengths: Lengths, ahead: seq<Bit>, truncated: bool): (r: (SymResult, seq<Bit>))
    ensures r.0.Symbol? ==> r.0.value < |lengths| && |r.1| < |ahead|
  {
    ReadingBounds(lengths, ahead, truncated);
    var (res, used) := Reading(lengths, ahead, truncated);
    (res, ahead[used..])
  }

  /** Read n symbols one after another: the symbols and the bits left, or None if one is not read. */
  function ReadAll(lengths: Lengths, ahead: seq<Bit>, truncated: bool, n: nat): Option<(seq<nat>, seq<Bit>)> {
    if n == 0 then Some(([], ahead))
    else
      var (res, left) := ReadCode(lengths, ahead, truncated);
      if !res.Symbol? then None
      else
        var rest := ReadAll(lengths, left, truncated, n - 1);
        if rest == None then None else Some(([res.value] + rest.value.0, rest.value.1))
  }

  /** Reading a code gives its symbol and leaves what followed. */
  lemma ReadsCode(lengths: Lengths, s: nat, rest: seq<Bit>, truncated: bool)
    requires Kraft(lengths) && s < |lengths| && lengths[s] > 0 && (truncated ==> |rest| >= MAX_LENGTH)
    ensures ReadCode(lengths, Code(lengths, s) + rest, truncated) == (Symbol(s), rest)
  {
    hide Kraft;
    hide Code;
    hide WalkOf;
    WalkFinds(lengths, s, rest);
    assert (Code(lengths, s) + rest)[|Code(lengths, s)|..] == rest;
  }

  /** Reading back the codes of any symbols gives those symbols and leaves exactly what followed them. */
  lemma {:induction false} RoundTrip(lengths: Lengths, symbols: seq<nat>, rest: seq<Bit>, truncated: bool)
    requires Kraft(lengths) && (truncated ==> |rest| >= MAX_LENGTH)
    requires forall i :: 0 <= i < |symbols| ==> symbols[i] < |lengths| && lengths[symbols[i]] > 0
    ensures ReadAll(lengths, EncodeAll(lengths, symbols) + rest, truncated, |symbols|) == Some((symbols, rest))
  {
    hide Kraft;
    hide Code;
    hide ReadCode;
    if symbols == [] {
      assert EncodeAll(lengths, symbols) + rest == rest;
    } else {
      var code, more := Code(lengths, symbols[0]), EncodeAll(lengths, symbols[1..]);
      ReadsCode(lengths, symbols[0], more + rest, truncated);
      assert code + more + rest == code + (more + rest);
      RoundTrip(lengths, symbols[1..], rest, truncated);
      assert symbols == [symbols[0]] + symbols[1..];
    }
  }

  /** A symbol read near the end of the bits is the one read had more bits followed. */
  lemma EndReadsAlike(lengths: Lengths, ahead: seq<Bit>, more: seq<Bit>, truncated: bool)
    requires |ahead| < MAX_LENGTH <= |ahead + more| || !truncated
    requires Reading(lengths, ahead, false).0.Symbol?
    ensures Reading(lengths, ahead + more, truncated) == Reading(lengths, ahead, false)
  {
    NoCodesOfLengthZero(lengths);
    WalkExtends(lengths, ahead, more, 1);
  }

  function QuickBits(lengths: Lengths): nat {
    if |lengths| >= MANY_SYMBOLS then 10 else 7
  }

  /** An entry of the quick table: when the index begins with a code, its length and symbol. */
  ghost predicate QuickEntry(lengths: Lengths, i: nat, bits: nat, symbol: nat) {
    && 1 <= bits <= MAX_LENGTH && (lengths != [] ==> symbol < |lengths|)
    && (Kraft(lengths) ==>
         var w := WalkOf(lengths, Padded(i, QuickBits(lengths)));
         w.Found? ==> w == Found(symbol, bits))
  }

  lemma StandsApart(symbol: seq<nat>, at: nat, list: seq<nat>, p: nat, v: nat)
    requires Stands(symbol, at, list) && p < |symbol| && (p < at || at + |list| <= p)
    ensures Stands(symbol[p := v], at, list)
  {}

  lemma StandsMore(symbol: seq<nat>, at: nat, list: seq<nat>, v: nat)
    requires Stands(symbol, at, list) && at + |list| < |symbol|
    ensures Stands(symbol[at + |list| := v], at, list + [v])
  {}

  /** Where symbol i goes in the table. */
  function PlaceOf(lengths: Lengths, i: nat): nat
    requires i < |lengths|
  {
    Pos(lengths, lengths[i]) + |OfLength(lengths[..i], lengths[i])|
  }

  lemma PlaceIsFree(lengths: Lengths, i: nat)
    requires i < |lengths| && lengths[i] > 0
    ensures PlaceOf(lengths, i) < Pos(lengths, MAX_LENGTH + 1) <= |lengths|
  {
    hide OfLength;
    hide Pos;
    hide Count;
    var n := lengths[i];
    OfLengthNext(lengths, i, n);
    OfLengthPrefix(lengths, i + 1, n);
    CountIs(lengths, n);
    PlaceFits(lengths, n);
    PosFits(lengths, MAX_LENGTH + 1);
    PosGrows(lengths, n, MAX_LENGTH + 1);
  }

  /** Listing one more symbol at the next free place of its length. */
  lemma ListOne(lengths: Lengths, symbol: seq<nat>, i: nat)
    requires i < |lengths| && ListedSome(lengths, lengths[..i], symbol)
    ensures lengths[i] == 0 ==> ListedSome(lengths, lengths[..i + 1], symbol)
    ensures lengths[i] > 0 ==>
      PlaceOf(lengths, i) < |symbol| && ListedSome(lengths, lengths[..i + 1], symbol[PlaceOf(lengths, i) := i])
  {
    hide OfLength;
    hide Pos;
    hide Count;
    hide Stands;
    var n, p := lengths[i], PlaceOf(lengths, i);
    if n > 0 {
      PlaceIsFree(lengths, i);
    }
    var symbol' := if n > 0 then symbol[p := i] else symbol;
    forall b: nat | 1 <= b <= MAX_LENGTH ensures Stands(symbol', Pos(lengths, b), OfLength(lengths[..i + 1], b)) {
      assert Stands(symbol, Pos(lengths, b), OfLength(lengths[..i], b));
      OfLengthNext(lengths, i, b);
      if b == n {
        StandsMore(symbol, Pos(lengths, b), OfLength(lengths[..i], b), i);
      } else {
        assert OfLength(lengths[..i + 1], b) == OfLength(lengths[..i], b);
        if n > 0 {
          Apart(lengths, i, n, b);
          StandsApart(symbol, Pos(lengths, b), OfLength(lengths[..i], b), p, i);
        }
      }
    }
  }

  lemma CountIs(lengths: Lengths, b: nat)
    requires b > 0
    ensures Count(lengths, b) == |OfLength(lengths, b)|
  {}

  lemma PlaceFits(lengths: Lengths, b: nat)
    ensures Pos(lengths, b + 1) == Pos(lengths, b) + Count(lengths, b)
  {}

  /** The places of different lengths are different. */
  lemma Apart(lengths: Lengths, i: nat, n: nat, b: nat)
    requires i < |lengths| && n == lengths[i] && n > 0 && b > 0 && b != n
    ensures PlaceOf(lengths, i) < Pos(lengths, b)
      || Pos(lengths, b) + |OfLength(lengths[..i], b)| <= PlaceOf(lengths, i)
  {
    hide OfLength;
    hide Pos;
    OfLengthPrefix(lengths, i, b);
    OfLengthPrefix(lengths, i + 1, n);
    OfLengthNext(lengths, i, n);
    if b < n {
      PosGrows(lengths, b, n);
    } else {
      PosGrows(lengths, n, b);
    }
  }

  lemma NoneListed(lengths: Lengths, symbol: seq<nat>)
    requires |symbol| == |lengths| && forall j :: 0 <= j < |symbol| ==> symbol[j] == 0
    ensures ListedSome(lengths, lengths[..0], symbol)
  {
    forall b: nat | 1 <= b <= MAX_LENGTH ensures Stands(symbol, Pos(lengths, b), OfLength(lengths[..0], b)) {
      PosFits(lengths, b);
    }
  }

  /** How many codes there are of each length. */
  method CountLengths(lengths: Lengths) returns (count: array<nat>)
    requires |lengths| <= MAX_SYMBOLS
    ensures fresh(count) && count.Length == MAX_LENGTH + 1
    ensures forall b :: 0 <= b <= MAX_LENGTH ==> count[b] == Count(lengths, b)
  {
    hide OfLength;
    count := new nat[MAX_LENGTH + 1](_ => 0);
    forall b: nat ensures OfLength(lengths[..0], b) == [] { NoneOfLength(lengths[..0], b); }
    for i := 0 to |lengths|
      invariant count[0] == 0
      invariant forall b :: 1 <= b <= MAX_LENGTH ==> count[b] == |OfLength(lengths[..i], b)|
    {
      forall b: nat
        ensures OfLength(lengths[..i + 1], b) == OfLength(lengths[..i], b) + if lengths[i] == b then [i] else [] {
        OfLengthNext(lengths, i, b);
      }
      var n := lengths[i];
      CountFits(lengths[..i + 1], n);
      if n != 0 {
        count[n] := Wrap16(count[n] + 1);
      }
    }
    assert lengths[..|lengths|] == lengths;
  }

  lemma NoneOfLength(lengths: Lengths, b: nat)
    requires lengths == []
    ensures OfLength(lengths, b) == []
  {}

  lemma FirstLimit(lengths: Lengths)
    ensures Limit(lengths, 0) == 0 && Pos(lengths, 0) == 0 && Wrap16(0) == 0
  {
    NoCodesOfLengthZero(lengths);
  }

  /** Each stored limit follows from the one before, wrapping as 16 bits do. */
  lemma NextLimit(lengths: Lengths, b: nat, before: nat)
    requires 1 <= b <= MAX_LENGTH && |lengths| <= MAX_SYMBOLS && before == Wrap16(Limit(lengths, b - 1))
    ensures Wrap16(before + Wrap16(Count(lengths, b) * Pow2(MAX_LENGTH - b))) == Wrap16(Limit(lengths, b))
    ensures Wrap16(Pos(lengths, b - 1) + Count(lengths, b - 1)) == Pos(lengths, b)
  {
    hide Limit;
    hide Count;
    LimitGrows(lengths, b);
    Wrap16Add(Limit(lengths, b - 1), Wrap16(Count(lengths, b) * Pow2(MAX_LENGTH - b)));
    Wrap16Add(Count(lengths, b) * Pow2(MAX_LENGTH - b), Limit(lengths, b - 1));
    PosFits(lengths, b);
    Wrap16Small(Pos(lengths, b));
  }

  lemma QuickBitsAre(lengths: Lengths)
    ensures QuickBits(lengths) == if |lengths| >= MANY_SYMBOLS then 10 else 7
  {}

  lemma QuickSizes()
    ensures Pow2(7) == 128 && Pow2(10) == 1024 && Pow2(5) == 32 && Pow2(8) == 256
  {
    assert Pow2(4) == 16;
  }

  lemma PastNone(lengths: Lengths, ahead: seq<Bit>)
    ensures Past(lengths, ahead, 1) && Begun(Num(ahead[..0]), 0, 0) == 0
  {
    NoCodesOfLengthZero(lengths);
  }

  /** Passing every code that the bits could begin with leaves the walk without a code. */
  lemma WalkRunsOut(lengths: Lengths, ahead: seq<Bit>)
    requires |ahead| < MAX_LENGTH && Past(lengths, ahead, |ahead| + 1)
    ensures WalkOf(lengths, ahead) == TooShort
  {
    WalkReaches(lengths, ahead, |ahead| + 1);
  }

  /** One more bit at the place it has among the longest codes. */
  lemma NextBit(ahead: seq<Bit>, bits: nat, v: nat, b: nat)
    requires 1 <= bits <= MAX_LENGTH && bits <= |ahead| && v == Begun(Num(ahead[..bits - 1]), 0, bits - 1)
    requires b == Num(ahead[bits - 1..][..1])
    ensures v + b * Pow2(MAX_LENGTH - bits) == Begun(Num(ahead[..bits]), 0, bits) < 0x8000
    ensures Pow2(MAX_LENGTH - bits) > 0
  {
    hide Pow2;
    hide Num;
    Pow2Values();
    assert ahead[bits - 1..][..1] == [ahead[bits - 1]];
    NumOne(ahead, bits);
    Pow2Add(bits, MAX_LENGTH - bits);
    Pow2Add(1, MAX_LENGTH - bits);
    PowOne();
    assert Num(ahead[..bits]) < Pow2(|ahead[..bits]|);
    Appended(Num(ahead[..bits - 1]), b, Pow2(MAX_LENGTH - bits), Pow2(bits));
  }

  lemma Appended(x: int, b: int, p: int, q: int)
    requires p >= 0 && 2 * x + b < q && p > 0
    ensures x * (2 * p) + b * p == (2 * x + b) * p < q * p
  {
    Spread(x, b, p);
    Gap(2 * x + b, q, p);
  }

  lemma PowOne()
    ensures Pow2(1) == 2
  {}

  lemma NumOne(ahead: seq<Bit>, bits: nat)
    requires 1 <= bits <= |ahead|
    ensures Num([ahead[bits - 1]]) == ahead[bits - 1]
      && Num(ahead[..bits]) == 2 * Num(ahead[..bits - 1]) + ahead[bits - 1]
  {
    assert ahead[..bits][..bits - 1] == ahead[..bits - 1];
    assert [ahead[bits - 1]][..0] == [];
  }

  lemma QuickIndex(v: nat, q: nat) returns (i: nat)
    requires v < 0x8000 && (q == 7 || q == 10)
    ensures i == Shr(v, MAX_LENGTH - q) && i < Pow2(q) <= QUICK_SIZE
  {
    hide Shr;
    QuickSizes();
    i := Shr(v, MAX_LENGTH - q);
    ShrDivides(v, MAX_LENGTH - q);
  }

  lemma {:induction false} NoLimit(lengths: Lengths, b: nat)
    requires lengths == [] && b <= MAX_LENGTH
    ensures CodeEnd(lengths, b) == 0 && Limit(lengths, b) == 0
  {
    hide OfLength;
    hide Pow2;
    CountNone(lengths, b);
    if b > 0 {
      NoLimit(lengths, b - 1);
    }
  }

  /** An index of the quick table and its place among the limits make an entry. */
  lemma QuickEntryMade(lengths: Lengths, limit: Table, pos: Table, symbol: seq<nat>, i: nat, bits: nat, s: nat)
    requires Tabled(lengths, limit, pos, symbol) && i < Pow2(QuickBits(lengths)) && 1 <= bits <= MAX_LENGTH
    requires var v := i * Pow2(MAX_LENGTH - QuickBits(lengths));
      && (forall j: nat | j < bits :: limit[j] <= v) && (v < limit[bits] || bits == MAX_LENGTH)
      && s == if Place(limit, pos, v, bits) < |symbol| then symbol[Place(limit, pos, v, bits)] else 0
    requires forall j :: 0 <= j < |symbol| ==> symbol[j] < |lengths|
    ensures QuickEntry(lengths, i, bits, s)
  {
    hide Tabled;
    hide Place;
    hide Kraft;
    hide WalkOf;
    hide Missed;
    var q := QuickBits(lengths);
    var ahead := Padded(i, q);
    if Kraft(lengths) {
      PaddedNum(i, q);
      assert ahead[..MAX_LENGTH] == ahead;
      ScanLooksUp(lengths, limit, pos, symbol, ahead, i * Pow2(MAX_LENGTH - q), bits);
      MissedNone(lengths, symbol, Place(limit, pos, i * Pow2(MAX_LENGTH - q), bits), WalkOf(lengths, ahead));
    }
  }

  class HuffmanDecoder {
    const limit: array<nat>
    const pos: array<nat>
    var symbol: array<nat>
    var min: nat
    var quickbits: nat
    const quicklen: array<nat>
    const quicksym: array<nat>
    // The code lengths the tables were made from.
    ghost var lengths: Lengths

    ghost function Tables(): set<object>
      reads `symbol
    {
      {limit, pos, symbol, quicklen, quicksym}
    }

    ghost predicate Shape()
      reads this
    {
      && limit.Length == pos.Length == MAX_LENGTH + 1 && quicklen.Length == quicksym.Length == QUICK_SIZE
      && limit != pos && limit != quicklen && limit != quicksym && pos != quicklen && pos != quicksym
      && quicklen != quicksym
      && symbol !in {limit, pos, quicklen, quicksym} && |lengths| <= MAX_SYMBOLS
    }

    /** The limits and positions of the code's lengths, and the least length that has a code. */
    ghost predicate Limited()
      reads `lengths, `min, limit, pos
    {
      && limit.Length == pos.Length == MAX_LENGTH + 1
      && (forall b: nat | b <= MAX_LENGTH :: limit[b] == Wrap16(Limit(lengths, b)))
      && (forall b: nat | b <= MAX_LENGTH :: pos[b] == Pos(lengths, b))
      && min <= MAX_LENGTH && forall b :: 0 <= b < min ==> limit[b] == 0
    }

    ghost predicate QuickFilled(n: nat)
      reads this, quicklen, quicksym
    {
      && quickbits == QuickBits(lengths) && quicklen.Length == quicksym.Length == QUICK_SIZE && n <= Pow2(quickbits)
      && forall i :: 0 <= i < n && i < QUICK_SIZE ==> QuickEntry(lengths, i, quicklen[i], quicksym[i])
    }

    ghost predicate Valid()
      reads this, limit, pos, symbol, quicklen, quicksym
    {
      && Shape() && Limited() && Listed(lengths, symbol[..]) && QuickFilled(Pow2(quickbits))
      && forall j :: 0 <= j < symbol.Length ==> symbol[j] < |lengths|
    }

    lemma LimitedShape()
      requires Valid()
      ensures 1 <= quickbits <= MAX_LENGTH && limit.Length == MAX_LENGTH + 1
    {}

    lemma LimitedTables(symbol: seq<nat>)
      requires Limited() && Listed(lengths, symbol)
      ensures Tabled(lengths, limit[..], pos[..], symbol) && limit[0] == 0
    {
      hide Limit;
      FirstLimit(lengths);
    }

    constructor ()
      ensures fresh({limit, pos, quicklen, quicksym})
      ensures Shape() && fresh(Tables()) && forall o :: o in Tables() ==> allocated(o)
    {
      limit := new nat[MAX_LENGTH + 1](_ => 0);
      pos := new nat[MAX_LENGTH + 1](_ => 0);
      symbol := new nat[0];
      min, quickbits := 0, 0;
      quicklen := new nat[QUICK_SIZE](_ => 0);
      quicksym := new nat[QUICK_SIZE](_ => 0);
      lengths := [];
    }

    method SetLimits(count: array<nat>)
      requires Shape() && count !in {limit, pos, quicklen, quicksym, symbol} && count.Length == MAX_LENGTH + 1
      requires forall b :: 0 <= b <= MAX_LENGTH ==> count[b] == Count(lengths, b)
      modifies `min, limit, pos
      ensures Limited()
    {
      hide Limit;
      hide Count;
      hide Pos;
      hide Pow2;
      pos[0] := 0;
      limit[0] := 0;
      min := 0;
      FirstLimit(lengths);
      for i := 1 to MAX_LENGTH + 1
        invariant forall b: nat | b < i :: limit[b] == Wrap16(Limit(lengths, b))
        invariant forall b: nat | b < i :: pos[b] == Pos(lengths, b)
        invariant min < i && (min == 0 ==> forall b :: 0 <= b < i ==> limit[b] == 0)
        invariant forall b :: 0 <= b < min ==> limit[b] == 0
      {
        NextLimit(lengths, i, limit[i - 1]);
        limit[i] := Wrap16(limit[i - 1] + Wrap16(count[i] * Pow2(MAX_LENGTH - i)));
        pos[i] := Wrap16(pos[i - 1] + count[i - 1]);
        if min == 0 && limit[i] > 0 {
          min := i;
        }
      }
    }

    method ListSymbols(codeLengths: Lengths, count: array<nat>)
      requires Shape() && codeLengths == lengths && count !in {limit, pos, quicklen, quicksym, symbol}
        && count.Length == MAX_LENGTH + 1
      requires Limited()
      modifies `symbol, count
      ensures Shape() && fresh(symbol) && Listed(lengths, symbol[..])
      ensures forall j :: 0 <= j < symbol.Length ==> symbol[j] < |lengths|
    {
      hide Pos;
      hide OfLength;
      hide Limit;
      hide ListedSome;
      symbol := new nat[|codeLengths|](_ => 0);
      for b := 0 to MAX_LENGTH + 1
        modifies count
        invariant forall j :: 0 <= j < b ==> count[j] == pos[j]
      {
        count[b] := pos[b];
      }
      NoneListed(lengths, symbol[..]);
      forall b: nat ensures OfLength(lengths[..0], b) == [] { NoneOfLength(lengths[..0], b); }
      for i := 0 to |codeLengths|
        modifies symbol, count
        invariant ListedSome(lengths, lengths[..i], symbol[..])
        invariant forall j :: 0 <= j < symbol.Length ==> symbol[j] < |lengths|
        invariant forall b: nat | 1 <= b <= MAX_LENGTH :: count[b] == Pos(lengths, b) + |OfLength(lengths[..i], b)|
      {
        ListOne(lengths, symbol[..], i);
        forall b: nat
          ensures OfLength(lengths[..i + 1], b) == OfLength(lengths[..i], b) + if lengths[i] == b then [i] else [] {
          OfLengthNext(lengths, i, b);
        }
        var n := codeLengths[i];
        if n != 0 {
          ghost var before := symbol[..];
          symbol[count[n]] := Wrap16(i);
          assert symbol[..] == before[count[n] := i];
          count[n] := Wrap16(count[n] + 1);
        }
      }
      assert lengths[..|lengths|] == lengths;
    }

    method FillQuick(codeLengths: Lengths)
      requires Shape() && codeLengths == lengths && Limited() && Listed(lengths, symbol[..])
      requires forall j :: 0 <= j < symbol.Length ==> symbol[j] < |lengths|
      modifies `quickbits, quicklen, quicksym
      ensures Shape() && Limited() && QuickFilled(Pow2(quickbits))
    {
      hide Limit;
      hide Pos;
      hide Listed;
      hide Wrap16;
      hide Shr;
      hide QuickEntry;
      hide QuickBits;
      hide Pow2;
      hide Limited;
      hide Tabled;
      quickbits := if |codeLengths| >= MANY_SYMBOLS then 10 else 7;
      QuickSizes();
      QuickBitsAre(lengths);
      var size, step := Pow2(quickbits), Pow2(MAX_LENGTH - quickbits);
      var bits := 1;
      FirstLimit(lengths);
      LimitedTables(symbol[..]);
      for i := 0 to size
        modifies quicklen, quicksym
        invariant Tabled(lengths, limit[..], pos[..], symbol[..]) && 1 <= bits <= MAX_LENGTH
        invariant forall j :: 0 <= j < bits ==> limit[j] <= i * step
        invariant QuickFilled(i)
      {
        var v := i * step;
        while v >= limit[bits] && bits < MAX_LENGTH
          modifies {}
          invariant 1 <= bits <= MAX_LENGTH && forall j :: 0 <= j < bits ==> limit[j] <= v
          decreases MAX_LENGTH - bits
        {
          bits := bits + 1;
        }
        quicklen[i] := bits;
        var p := pos[bits] + Shr(Wrap16(v - limit[bits - 1]), MAX_LENGTH - bits);
        if p < symbol.Length {
          quicksym[i] := symbol[p];
        } else {
          quicksym[i] := 0;
        }
        QuickEntryMade(lengths, limit[..], pos[..], symbol[..], i, bits, quicksym[i]);
      }
    }

    /** Make the tables for a code. */
    method Init(codeLengths: Lengths)
      requires Shape() && |codeLengths| <= MAX_SYMBOLS
      modifies this, limit, pos, quicklen, quicksym
      ensures Valid() && lengths == codeLengths && fresh(Tables() - old(Tables()))
    {
      hide Limited;
      hide Listed;
      hide QuickFilled;
      hide Count;
      lengths := codeLengths;
      var count := CountLengths(codeLengths);
      SetLimits(count);
      ListSymbols(codeLengths, count);
      FillQuick(codeLengths);
    }

    /** At the end of the input: take single bits until they are below a limit. */
    method ReadBitwise(r: BitReader) returns (found: bool, bits: nat, v: nat)
      requires Valid() && r.Valid() && |r.Ahead()| < MAX_LENGTH && !r.Truncated()
      modifies r.Parts()
      ensures r.Valid() && !r.Truncated() && r.Beyond() == old(r.Beyond())
      ensures !found ==> r.Ahead() == [] && (Kraft(lengths) ==> WalkOf(lengths, old(r.Ahead())) == TooShort)
      ensures found ==> 1 <= bits <= |old(r.Ahead())| && r.Ahead() == old(r.Ahead())[bits..] && v < limit[bits]
      ensures found && Kraft(lengths) ==> Place(limit[..], pos[..], v, bits) < symbol.Length
      ensures found && Kraft(lengths) ==>
        WalkOf(lengths, old(r.Ahead())) == Found(symbol[Place(limit[..], pos[..], v, bits)], bits)
    {
      hide BitReader.Valid;
      hide BitReader.Ahead;
      hide BitReader.Behind;
      hide BitReader.Truncated;
      hide BitReader.Beyond;
      hide Tabled;
      hide Place;
      hide Kraft;
      hide WalkOf;
      hide Past;
      hide Limited;
      hide QuickFilled;
      hide Listed;
      hide Num;
      hide Begun;
      hide Pow2;
      ghost var ahead := r.Ahead();
      LimitedTables(symbol[..]);
      PastNone(lengths, ahead);
      bits, v := 1, 0;
      while bits <= MAX_LENGTH
        invariant 1 <= bits <= |ahead| + 1 && r.Valid() && !r.Truncated() && r.Beyond() == old(r.Beyond())
          && r.Ahead() == ahead[bits - 1..]
        invariant v == Begun(Num(ahead[..bits - 1]), 0, bits - 1) && v < 0x8000
        invariant Kraft(lengths) ==> Past(lengths, ahead, bits)
        decreases MAX_LENGTH - bits
      {
        var b := r.ReadBits(1);
        if !b.Got? {
          if Kraft(lengths) {
            WalkRunsOut(lengths, ahead);
          }
          return false, bits, v;
        }
        NextBit(ahead, bits, v, b.value);
        v := v + b.value * Pow2(MAX_LENGTH - bits);
        if Kraft(lengths) {
          LookedUp(lengths, limit[..], pos[..], symbol[..], ahead, v, 0, bits);
        }
        if v < limit[bits] {
          return true, bits, v;
        }
        bits := bits + 1;
      }
      assert false;
    }

    /** Find the length of the code that v begins with by scanning the limits. */
    method Scan(v: nat) returns (bits: nat)
      requires Valid() && v < 0x8000
      ensures 1 <= bits <= MAX_LENGTH && (v < limit[bits] || bits == MAX_LENGTH)
      ensures forall j :: 0 <= j < bits ==> limit[j] <= v
    {
      hide Limit;
      hide Listed;
      hide QuickFilled;
      FirstLimit(lengths);
      bits := min;
      while bits < MAX_LENGTH
        invariant min <= bits <= MAX_LENGTH && forall j :: 0 <= j < bits ==> limit[j] <= v
      {
        if v < limit[bits] {
          break;
        }
        bits := bits + 1;
      }
    }

    /** The quick table's answer for bits below the limit it stands for. */
    lemma QuickReads(ahead: seq<Bit>, v: nat) returns (i: nat)
      requires Valid() && MAX_LENGTH <= |ahead| && v == Num(ahead[..MAX_LENGTH]) && v < limit[quickbits]
      ensures i == Shr(v, MAX_LENGTH - quickbits) && i < QUICK_SIZE
      ensures 1 <= quicklen[i] <= MAX_LENGTH && quicksym[i] < |lengths|
      ensures Kraft(lengths) ==> WalkOf(lengths, ahead) == Found(quicksym[i], quicklen[i])
    {
      hide Kraft;
      hide Num;
      hide WalkOf;
      hide Limit;
      hide Listed;
      hide Pow2;
      hide Padded;
      hide Shr;
      QuickSizes();
      QuickBitsAre(lengths);
      Pow2Values();
      i := QuickIndex(v, quickbits);
      if Kraft(lengths) {
        LimitFits(lengths, quickbits);
        var i' := QuickFinds(lengths, ahead, v, quickbits);
      }
      if lengths == [] {
        NoLimit(lengths, quickbits);
      }
    }

    /** What the two slow ways of reading end with. */
    function Lookup(v: nat, bits: nat): SymResult
      requires 1 <= bits <= MAX_LENGTH && limit.Length == pos.Length == MAX_LENGTH + 1
      reads this, limit, pos, symbol
    {
      var p := pos[bits] + Shr(Wrap16(v - limit[bits - 1]), MAX_LENGTH - bits);
      if p >= symbol.Length then NoSymbol else Symbol(symbol[p])
    }

    lemma ScanReads(ahead: seq<Bit>, v: nat, bits: nat)
      requires Valid() && MAX_LENGTH <= |ahead| && v == Num(ahead[..MAX_LENGTH]) && Kraft(lengths)
      requires 1 <= bits <= MAX_LENGTH && (v < limit[bits] || bits == MAX_LENGTH)
      requires forall j :: 0 <= j < bits ==> limit[j] <= v
      ensures (Lookup(v, bits), bits) == Reading(lengths, ahead, false)
    {
      hide Tabled;
      hide Kraft;
      hide WalkOf;
      hide Num;
      hide Limited;
      hide QuickFilled;
      hide OfLength;
      hide Pos;
      hide Shr;
      hide MissPlace;
      LimitedTables(symbol[..]);
      ScanLooksUp(lengths, limit[..], pos[..], symbol[..], ahead, v, bits);
    }

    /** The bits of the longest codes were read, and are the number v: keep those of one symbol. */
    method ReadLong(r: BitReader, v: nat, ghost ahead: seq<Bit>) returns (res: SymResult, ghost used: nat)
      requires Valid() && r.Valid() && MAX_LENGTH <= |ahead| && v == Num(ahead[..MAX_LENGTH])
      requires r.Ahead() == ahead[MAX_LENGTH..]
      requires MAX_LENGTH <= |r.Behind()| && Last(r.Behind(), MAX_LENGTH) == ahead[..MAX_LENGTH]
      modifies r.Parts()
      ensures r.Valid() && r.Truncated() == old(r.Truncated()) && r.Beyond() == old(r.Beyond())
      ensures 1 <= used <= MAX_LENGTH && r.Ahead() == ahead[used..]
      ensures res.NoSymbol? || (res.Symbol? && res.value < |lengths|)
      ensures Kraft(lengths) ==> (res, used) == Reading(lengths, ahead, r.Truncated())
    {
      hide BitReader.Valid;
      hide BitReader.Ahead;
      hide BitReader.Behind;
      hide BitReader.Truncated;
      hide BitReader.Beyond;
      hide Limited;
      hide Listed;
      hide QuickFilled;
      hide Kraft;
      hide WalkOf;
      hide Num;
      hide Pow2;
      hide Shr;
      hide MissPlace;
      Pow2Values();
      LimitedShape();
      if v < limit[quickbits] {
        var i := Shr(v, MAX_LENGTH - quickbits);
        ghost var i' := QuickReads(ahead, v);
        r.UnreadBits(MAX_LENGTH - quicklen[i]);
        return Symbol(quicksym[i]), quicklen[i];
      }
      var bits := Scan(v);
      r.UnreadBits(MAX_LENGTH - bits);
      if Kraft(lengths) {
        ScanReads(ahead, v, bits);
      }
      res, used := Lookup(v, bits), bits;
    }

    /** Read one symbol. */
    method ReadSym(r: BitReader) returns (res: SymResult, ghost used: nat)
      requires Valid() && r.Valid()
      modifies r.Parts()
      ensures r.Valid() && r.Truncated() == old(r.Truncated()) && r.Beyond() == old(r.Beyond())
      ensures used <= |old(r.Ahead())| && r.Ahead() == old(r.Ahead())[used..]
      ensures res.Symbol? ==> res.value < |lengths| && 1 <= used
      ensures res.EndOfBits? ==> r.Ahead() == [] && !r.Truncated()
      ensures res.EndOfData? ==> used == 0 && r.Truncated()
      ensures Kraft(lengths) ==> (res, used) == Reading(lengths, old(r.Ahead()), r.Truncated())
    {
      hide BitReader.Valid;
      hide BitReader.Ahead;
      hide BitReader.Behind;
      hide BitReader.Truncated;
      hide BitReader.Beyond;
      hide Limited;
      hide Listed;
      hide QuickFilled;
      hide Kraft;
      hide WalkOf;
      hide Num;
      hide Pow2;
      hide Shr;
      hide MissPlace;
      ghost var ahead := r.Ahead();
      var n := r.ReadBits(MAX_LENGTH);
      if n.OutOfData? {
        return EndOfData, 0;
      } else if n.Eof? {
        var found, bits, v := ReadBitwise(r);
        if !found {
          return EndOfBits, |ahead|;
        }
        res, used := Lookup(v, bits), bits;
      } else {
        res, used := ReadLong(r, n.value, ahead);
      }
    }
  }
}

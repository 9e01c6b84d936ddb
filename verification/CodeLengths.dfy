/** Reading a table of code lengths, itself written with a small Huffman code and run lengths. */
module CodeLengths {
  import opened Machine
  import opened Bits
  import opened BitStrings
  import opened BitReaders
  import opened Canonical
  import opened Huffman

  const LEVELS := 20

  /** Copies of a value. */
  function Copies(value: nat, count: nat): (s: seq<nat>)
    ensures |s| == count && forall k :: 0 <= k < count ==> s[k] == value
  {
    seq(count, _ => value)
  }

  /** The lengths of the small code: four bits each; 15 opens a run of zeros unless four zero bits follow. */
  function ReadLevels(ahead: seq<Bit>, done: Lengths): (r: Option<(Lengths, seq<Bit>)>)
    ensures r.Some? ==> |r.value.0| == LEVELS
    decreases |ahead|
  {
    if |done| >= LEVELS then Some((done[..LEVELS], ahead))
    else if |ahead| < 4 then None
    else
      FourBits(ahead[..4]);
      var n, rest := Num(ahead[..4]), ahead[4..];
      if n != 15 then ReadLevels(rest, done + [n])
      else if |rest| < 4 then None
      else
        var count := Num(rest[..4]);
        ReadLevels(rest[4..], done + if count > 0 then Copies(0, count + 2) else [15])
  }

  lemma FourBits(s: seq<Bit>)
    requires |s| == 4
    ensures Num(s) <= MAX_LENGTH
  {
    assert Pow2(4) == 16;
  }

  datatype TableResult = TableOk | TableInvalid | TableShort

  datatype TableRead = Table(entries: seq<nat>, rest: seq<Bit>) | Invalid | Short

  function RunBits(sym: nat): nat { if sym == 16 || sym == 18 then 3 else 7 }

  function RunBase(sym: nat): nat { if sym == 16 || sym == 18 then 3 else 11 }

  /** An entry from a symbol: the length itself, or what to add to the old one. */
  function Entry(previous: nat, sym: nat, addOld: bool): nat {
    if addOld then (previous + sym) % 16 else sym
  }

  /** The entries: a length, or a run of the one before, or a run of zeros. */
  function ReadEntries(levels: Lengths, truncated: bool, ahead: seq<Bit>, before: seq<nat>, addOld: bool,
                       done: seq<nat>): TableRead
    decreases |ahead|
  {
    if |done| >= |before| then Table(done[..|before|], ahead)
    else
      var (res, rest) := ReadCode(levels, ahead, truncated);
      if !res.Symbol? then Short
      else if res.value < 16 then
        ReadEntries(levels, truncated, rest, before, addOld, done + [Entry(before[|done|], res.value, addOld)])
      else
        var k := RunBits(res.value);
        if |rest| < k then Short
        else if res.value < 18 && done == [] then Invalid
        else
          var count := RunBase(res.value) + Num(rest[..k]);
          var value := if res.value < 18 then done[|done| - 1] else 0;
          ReadEntries(levels, truncated, rest[k..], before, addOld, done + Copies(value, count))
  }

  /** A table read is as long as the one before and holds code lengths only. */
  lemma {:induction false} EntriesSmall(levels: Lengths, truncated: bool, ahead: seq<Bit>, before: seq<nat>,
                                        addOld: bool, done: seq<nat>)
    requires Small(done)
    ensures var r := ReadEntries(levels, truncated, ahead, before, addOld, done);
      r.Table? ==> |r.entries| == |before| && Small(r.entries) && |r.rest| <= |ahead|
    decreases |ahead|
  {
    hide ReadCode;
    hide Num;
    if |done| < |before| {
      var (res, rest) := ReadCode(levels, ahead, truncated);
      if res.Symbol? && res.value < 16 {
        EntriesSmall(levels, truncated, rest, before, addOld, done + [Entry(before[|done|], res.value, addOld)]);
      } else if res.Symbol? && RunBits(res.value) <= |rest| && (res.value >= 18 || done != []) {
        var k := RunBits(res.value);
        var value := if res.value < 18 then done[|done| - 1] else 0;
        EntriesSmall(levels, truncated, rest[k..], before, addOld,
                     done + Copies(value, RunBase(res.value) + Num(rest[..k])));
      }
    }
  }

  lemma {:induction false} LevelsShorter(ahead: seq<Bit>, done: Lengths)
    ensures var r := ReadLevels(ahead, done); r.Some? ==> |r.value.1| <= |ahead|
    decreases |ahead|
  {
    hide Num;
    if |done| < LEVELS && |ahead| >= 4 {
      FourBits(ahead[..4]);
      var n, rest := Num(ahead[..4]), ahead[4..];
      if n != 15 {
        LevelsShorter(rest, done + [n]);
      } else if |rest| >= 4 {
        var count := Num(rest[..4]);
        LevelsShorter(rest[4..], done + if count > 0 then Copies(0, count + 2) else [15]);
      }
    }
  }

  /** A whole table: the lengths of the small code, and the entries written with it. */
  function ReadLengths(truncated: bool, ahead: seq<Bit>, before: seq<nat>, addOld: bool): (r: TableRead)
    ensures r.Table? ==> |r.entries| == |before| && Small(r.entries) && |r.rest| <= |ahead|
  {
    var levels := ReadLevels(ahead, []);
    if levels == None then Short
    else
      LevelsShorter(ahead, []);
      EntriesSmall(levels.value.0, truncated, levels.value.1, before, addOld, []);
      ReadEntries(levels.value.0, truncated, levels.value.1, before, addOld, [])
  }

  /** The small code satisfies Kraft's inequality. */
  predicate LevelsFit(ahead: seq<Bit>) {
    var levels := ReadLevels(ahead, []);
    levels.Some? ==> Kraft(levels.value.0)
  }

  /** What was read is in the table, or the table is refused. */
  ghost predicate AgreesTable(res: TableResult, r: TableRead, table: seq<nat>, ahead: seq<Bit>) {
    match r
    case Table(entries, rest) => res == TableOk && table == entries && ahead == rest
    case Invalid => res == TableInvalid
    case Short => res == TableShort
  }

  /** Entries written so far, and the rest of the table as it was. */
  ghost predicate Written(table: seq<nat>, before: seq<nat>, done: seq<nat>) {
    && |table| == |before|
    && forall k :: 0 <= k < |table| ==> table[k] == if k < |done| then done[k] else before[k]
  }

  /** Every entry is a code length. */
  predicate Small(s: seq<nat>) { forall k :: 0 <= k < |s| ==> s[k] <= MAX_LENGTH }

  // Writing a table.

  datatype Run = One(sym: nat) | Same(count: nat) | Zeros(count: nat)

  /** A run that can be written: three to ten entries with a short count, up to 138 with a long one. */
  ghost predicate Writable(levels: Lengths, run: Run) {
    match run
    case One(sym) => sym < 16 && sym < |levels| && levels[sym] > 0
    case Same(count) => 3 <= count <= 138 && RunSymbol(run) < |levels| && levels[RunSymbol(run)] > 0
    case Zeros(count) => 3 <= count <= 138 && RunSymbol(run) < |levels| && levels[RunSymbol(run)] > 0
  }

  function RunSymbol(run: Run): nat {
    match run
    case One(sym) => sym
    case Same(count) => if count <= 10 then 16 else 17
    case Zeros(count) => if count <= 10 then 18 else 19
  }

  ghost function WriteRun(levels: Lengths, run: Run): seq<Bit>
    requires Writable(levels, run)
  {
    var sym := RunSymbol(run);
    Code(levels, sym) + if run.One? then [] else ToBits(run.count - RunBase(sym), RunBits(sym))
  }

  /** What a run adds to the entries. */
  function Entries(run: Run, before: seq<nat>, addOld: bool, done: seq<nat>): seq<nat>
    requires |done| < |before|
  {
    match run
    case One(sym) => done + [Entry(before[|done|], sym, addOld)]
    case Same(count) => done + Copies(if done == [] then 0 else done[|done| - 1], count)
    case Zeros(count) => done + Copies(0, count)
  }

  /** The runs fill the table from where it is, each of them needed. */
  ghost predicate Fills(levels: Lengths, runs: seq<Run>, before: seq<nat>, addOld: bool, done: seq<nat>)
    decreases |runs|
  {
    if runs == [] then |done| >= |before|
    else
      && |done| < |before| && Writable(levels, runs[0]) && (runs[0].Same? ==> done != [])
      && Fills(levels, runs[1..], before, addOld, Entries(runs[0], before, addOld, done))
  }

  ghost function WriteRuns(levels: Lengths, runs: seq<Run>): seq<Bit>
    requires forall k :: 0 <= k < |runs| ==> Writable(levels, runs[k])
  {
    if runs == [] then [] else WriteRun(levels, runs[0]) + WriteRuns(levels, runs[1..])
  }

  function AllEntries(runs: seq<Run>, before: seq<nat>, addOld: bool, done: seq<nat>): seq<nat>
    decreases |runs|
  {
    if runs == [] || |done| >= |before| then done
    else AllEntries(runs[1..], before, addOld, Entries(runs[0], before, addOld, done))
  }

  lemma ReadsRun(levels: Lengths, run: Run, rest: seq<Bit>, before: seq<nat>, addOld: bool, done: seq<nat>)
    requires Kraft(levels) && Writable(levels, run) && |done| < |before| && (run.Same? ==> done != [])
    ensures ReadEntries(levels, false, WriteRun(levels, run) + rest, before, addOld, done)
      == ReadEntries(levels, false, rest, before, addOld, Entries(run, before, addOld, done))
  {
    hide Kraft;
    hide Code;
    hide ReadCode;
    hide ToBits;
    hide Num;
    hide Pow2;
    hide Entry;
    var sym := RunSymbol(run);
    if run.One? {
      ReadsCode(levels, sym, rest, false);
      assert WriteRun(levels, run) + rest == Code(levels, sym) + rest;
    } else {
      var count := ToBits(run.count - RunBase(sym), RunBits(sym));
      ReadsCode(levels, sym, count + rest, false);
      assert WriteRun(levels, run) + rest == Code(levels, sym) + (count + rest);
      RunSizes();
      ReadsNumber(run.count - RunBase(sym), RunBits(sym), rest);
      CountedRun(levels, WriteRun(levels, run) + rest, sym, run.count - RunBase(sym), count, rest, before, addOld,
                 done);
    }
  }

  /** A symbol for a run, its extra bits, and what follows. */
  lemma CountedRun(levels: Lengths, ahead: seq<Bit>, sym: nat, n: nat, count: seq<Bit>, rest: seq<Bit>,
                   before: seq<nat>,
                   addOld: bool, done: seq<nat>)
    requires |done| < |before| && sym >= 16 && |count| == RunBits(sym) && Num((count + rest)[..RunBits(sym)]) == n
    requires ReadCode(levels, ahead, false) == (Symbol(sym), count + rest) && (sym < 18 ==> done != [])
    ensures ReadEntries(levels, false, ahead, before, addOld, done)
      == ReadEntries(levels, false, rest, before, addOld,
                     done + Copies(if sym < 18 then done[|done| - 1] else 0, RunBase(sym) + n))
  {
    hide ReadCode;
    hide Num;
    assert (count + rest)[RunBits(sym)..] == rest;
  }

  lemma RunSizes()
    ensures Pow2(3) == 8 && Pow2(7) == 128
  {
    assert Pow2(4) == 16 && Pow2(7) == 8 * Pow2(4);
  }

  /** Reading runs back gives the entries they stand for. */
  lemma {:induction false} ReadsRuns(levels: Lengths, runs: seq<Run>, rest: seq<Bit>, before: seq<nat>, addOld: bool,
                                     done: seq<nat>)
    requires Kraft(levels) && (forall k :: 0 <= k < |runs| ==> Writable(levels, runs[k]))
      && Fills(levels, runs, before, addOld, done)
    ensures |AllEntries(runs, before, addOld, done)| >= |before|
    ensures ReadEntries(levels, false, WriteRuns(levels, runs) + rest, before, addOld, done)
      == Table(AllEntries(runs, before, addOld, done)[..|before|], rest)
    decreases |runs|
  {
    hide Kraft;
    hide Writable;
    hide WriteRun;
    if runs == [] {
      assert WriteRuns(levels, runs) + rest == rest;
    } else {
      var more := WriteRuns(levels, runs[1..]);
      assert WriteRun(levels, runs[0]) + more + rest == WriteRun(levels, runs[0]) + (more + rest);
      ReadsRun(levels, runs[0], more + rest, before, addOld, done);
      ReadsRuns(levels, runs[1..], rest, before, addOld, Entries(runs[0], before, addOld, done));
    }
  }

  // Writing the small code's lengths.

  /** A length of the small code as it is written: by itself, or in a run of zeros. */
  datatype Level = Level(n: nat) | ZeroRun(count: nat)

  predicate LevelWritable(p: Level) {
    match p
    case Level(n) => n <= 15
    case ZeroRun(count) => 3 <= count <= 17
  }

  /** A length of 15 is followed by a zero, to tell it from a run; a run by its count less 2. */
  function WriteLevel(p: Level): seq<Bit>
    requires LevelWritable(p)
  {
    match p
    case Level(n) => ToBits(n, 4) + if n == 15 then ToBits(0, 4) else []
    case ZeroRun(count) => ToBits(15, 4) + ToBits(count - 2, 4)
  }

  /** The lengths it stands for. */
  ghost function LengthsOf(p: Level): Lengths
    requires LevelWritable(p)
  {
    match p
    case Level(n) => [n]
    case ZeroRun(count) => seq(count, _ => 0)
  }

  /** All lengths, as many as there are of them. */
  ghost function AllLengths(pieces: seq<Level>): Lengths
    requires forall k :: 0 <= k < |pieces| ==> LevelWritable(pieces[k])
  {
    if pieces == [] then [] else LengthsOf(pieces[0]) + AllLengths(pieces[1..])
  }

  /** The pieces give the twenty lengths, each piece needed; the last may reach beyond them. */
  ghost predicate LevelsFill(pieces: seq<Level>, done: nat)
    decreases |pieces|
  {
    if pieces == [] then done >= 20
    else done < 20 && LevelWritable(pieces[0]) && LevelsFill(pieces[1..], done + |LengthsOf(pieces[0])|)
  }

  lemma {:induction false} FillsWritable(pieces: seq<Level>, done: nat)
    requires LevelsFill(pieces, done)
    ensures forall k :: 0 <= k < |pieces| ==> LevelWritable(pieces[k])
    ensures done + |AllLengths(pieces)| >= LEVELS
    decreases |pieces|
  {
    if pieces != [] { FillsWritable(pieces[1..], done + |LengthsOf(pieces[0])|); }
  }

  /** The twenty lengths that pieces give. */
  ghost function LevelsOf(pieces: seq<Level>): (levels: Lengths)
    requires LevelsFill(pieces, 0)
    ensures |levels| == LEVELS
  {
    FillsWritable(pieces, 0);
    AllLengths(pieces)[..LEVELS]
  }

  function WriteLevels(pieces: seq<Level>): seq<Bit>
    requires forall k :: 0 <= k < |pieces| ==> LevelWritable(pieces[k])
  {
    if pieces == [] then [] else WriteLevel(pieces[0]) + WriteLevels(pieces[1..])
  }

  /** Every twenty lengths can be written, one by one. */
  lemma {:induction false} EachWritable(levels: Lengths, done: nat)
    requires done + |levels| == LEVELS
    ensures var pieces := seq(|levels|, i requires 0 <= i < |levels| => Level(levels[i]));
      LevelsFill(pieces, done) && AllLengths(pieces) == levels
    decreases |levels|
  {
    var pieces := seq(|levels|, i requires 0 <= i < |levels| => Level(levels[i]));
    if levels != [] {
      var rest := levels[1..];
      EachWritable(rest, done + 1);
      assert pieces[1..] == seq(|rest|, i requires 0 <= i < |rest| => Level(rest[i]));
      assert [levels[0]] + rest == levels;
    }
  }

  lemma {:induction false} ReadsLevels(pieces: seq<Level>, rest: seq<Bit>, done: Lengths)
    requires LevelsFill(pieces, |done|)
    ensures forall k :: 0 <= k < |pieces| ==> LevelWritable(pieces[k])
    ensures |done + AllLengths(pieces)| >= LEVELS
    ensures ReadLevels(WriteLevels(pieces) + rest, done) == Some(((done + AllLengths(pieces))[..LEVELS], rest))
    decreases |pieces|
  {
    hide WriteLevel;
    hide ReadLevels;
    FillsWritable(pieces, |done|);
    if pieces == [] {
      assert WriteLevels(pieces) + rest == rest && done + [] == done;
      LevelsEnd(rest, done);
    } else {
      var p, more := pieces[0], WriteLevels(pieces[1..]) + rest;
      assert WriteLevels(pieces) + rest == WriteLevel(p) + more;
      ReadsLevel(p, more, done);
      ReadsLevels(pieces[1..], rest, done + LengthsOf(p));
      assert done + LengthsOf(p) + AllLengths(pieces[1..]) == done + AllLengths(pieces);
    }
  }

  lemma LevelsEnd(ahead: seq<Bit>, done: Lengths)
    requires |done| >= LEVELS
    ensures ReadLevels(ahead, done) == Some((done[..LEVELS], ahead))
  {}

  lemma ReadsLevel(p: Level, more: seq<Bit>, done: Lengths)
    requires LevelWritable(p) && |done| < LEVELS
    ensures ReadLevels(WriteLevel(p) + more, done) == ReadLevels(more, done + LengthsOf(p))
  {
    hide ToBits;
    hide ReadLevels;
    if p.Level? { ReadsPlain(p.n, more, done); } else { ReadsZeros(p.count, more, done); }
  }

  lemma ReadsPlain(n: nat, more: seq<Bit>, done: Lengths)
    requires n <= 15 && |done| < LEVELS
    ensures ReadLevels(WriteLevel(Level(n)) + more, done) == ReadLevels(more, done + [n])
  {
    hide ToBits;
    hide Num;
    hide Pow2;
    var zero := if n == 15 then ToBits(0, 4) else [];
    Sixteen();
    assert WriteLevel(Level(n)) + more == ToBits(n, 4) + (zero + more);
    ReadsNumber(n, 4, zero + more);
    if n == 15 { ReadsNumber(0, 4, more); } else { assert zero + more == more; }
  }

  lemma ReadsZeros(count: nat, more: seq<Bit>, done: Lengths)
    requires 3 <= count <= 17 && |done| < LEVELS
    ensures ReadLevels(WriteLevel(ZeroRun(count)) + more, done) == ReadLevels(more, done + seq(count, _ => 0))
  {
    hide ToBits;
    hide Num;
    hide Pow2;
    hide ReadLevels;
    Sixteen();
    var tail := ToBits(count - 2, 4) + more;
    assert WriteLevel(ZeroRun(count)) + more == ToBits(15, 4) + tail;
    ReadsNumber(15, 4, tail);
    ReadsNumber(count - 2, 4, more);
    RunOpened(ToBits(15, 4) + tail, done, tail, more, count);
    assert Copies(0, count) == seq(count, _ => 0);
  }

  /** A 15 and what follows it. */
  lemma RunOpened(ahead: seq<Bit>, done: Lengths, rest: seq<Bit>, more: seq<Bit>, count: nat)
    requires |done| < LEVELS && |ahead| >= 4 && Num(ahead[..4]) == 15 && ahead[4..] == rest
    requires |rest| >= 4 && Num(rest[..4]) == count - 2 && rest[4..] == more && 3 <= count <= 17
    ensures ReadLevels(ahead, done) == ReadLevels(more, done + Copies(0, count))
  {
    hide Num;
  }

  lemma Sixteen()
    ensures Pow2(4) == 16
  {}

  // The reader.

  /** Read one length of the small code, or a run of zeros. */
  method ReadLevel(br: BitReader, ghost done: Lengths) returns (p: Option<(nat, nat)>)
    requires br.Valid() && |done| < LEVELS
    modifies br.Parts()
    ensures br.Valid() && br.Truncated() == old(br.Truncated()) && br.Beyond() == old(br.Beyond())
      && |br.Ahead()| <= |old(br.Ahead())|
    ensures p == None ==> ReadLevels(old(br.Ahead()), done) == None
    ensures p.Some? ==>
      var (value, count) := p.value;
      && value <= 15 && count > 0 && (count > 1 ==> value == 0)
      && ReadLevels(old(br.Ahead()), done) == ReadLevels(br.Ahead(), done + Copies(value, count))
  {
    hide BitReader.Valid;
    hide BitReader.Ahead;
    hide BitReader.Truncated;
    hide BitReader.Beyond;
    hide Num;
    ghost var here := br.Ahead();
    if |here| >= 4 { FourBits(here[..4]); }
    var n := br.ReadBits(4);
    if !n.Got? {
      return None;
    }
    if n.value == 15 {
      var cnt := br.ReadBits(4);
      if !cnt.Got? {
        return None;
      }
      if cnt.value > 0 {
        return Some((0, cnt.value + 2));
      }
    }
    assert Copies(n.value, 1) == [n.value];
    p := Some((n.value, 1));
  }

  /** Read the lengths of the small code. */
  method ReadLevelTable(br: BitReader) returns (ok: bool, bitlength: array<nat>)
    requires br.Valid()
    modifies br.Parts()
    ensures br.Valid() && br.Truncated() == old(br.Truncated()) && br.Beyond() == old(br.Beyond())
      && |br.Ahead()| <= |old(br.Ahead())|
    ensures fresh(bitlength) && bitlength.Length == LEVELS && Small(bitlength[..])
    ensures var r := ReadLevels(old(br.Ahead()), []);
      if r == None then !ok else ok && bitlength[..] == r.value.0 && br.Ahead() == r.value.1
  {
    hide BitReader.Valid;
    hide BitReader.Ahead;
    hide BitReader.Truncated;
    hide BitReader.Beyond;
    hide ReadLevels;
    bitlength := new nat[LEVELS](_ => 0);
    ghost var ahead, done: Lengths := br.Ahead(), [];
    var i := 0;
    while i < LEVELS
      invariant br.Valid() && br.Truncated() == old(br.Truncated()) && br.Beyond() == old(br.Beyond())
      invariant |br.Ahead()| <= |old(br.Ahead())| && i == |done|
      invariant forall k :: 0 <= k < LEVELS ==> bitlength[k] == if k < i then done[k] else 0
      invariant ReadLevels(ahead, []) == ReadLevels(br.Ahead(), done)
      decreases LEVELS - i
    {
      var p := ReadLevel(br, done);
      if p == None {
        return false, bitlength;
      }
      var (value, count) := p.value;
      if count == 1 {
        bitlength[i] := value;
      }
      done := done + Copies(value, count);
      i := i + count;
    }
    LevelsEnd(br.Ahead(), done);
    assert bitlength[..] == done[..LEVELS];
    ok := true;
  }

  /** The extra bits of a run, and the value it repeats. */
  method ReadRun(br: BitReader, sym: nat) returns (count: Option<nat>)
    requires br.Valid() && 16 <= sym
    modifies br.Parts()
    ensures br.Valid() && br.Truncated() == old(br.Truncated()) && br.Beyond() == old(br.Beyond())
      && |br.Ahead()| <= |old(br.Ahead())|
    ensures count == None <==> |old(br.Ahead())| < RunBits(sym)
    ensures count.Some? ==>
      count.value == RunBase(sym) + Num(old(br.Ahead())[..RunBits(sym)])
      && br.Ahead() == old(br.Ahead())[RunBits(sym)..]
  {
    hide BitReader.Valid;
    hide BitReader.Ahead;
    hide BitReader.Truncated;
    hide BitReader.Beyond;
    hide Num;
    var n;
    if sym == 16 || sym == 18 {
      n := br.ReadBits(3);
    } else {
      n := br.ReadBits(7);
    }
    if !n.Got? {
      return None;
    }
    count := Some(n.value + if sym == 16 || sym == 18 then 3 else 11);
  }

  /** The first n entries are code lengths. */
  predicate SmallTo(s: seq<nat>, n: nat) { forall k :: 0 <= k < |s| && k < n ==> s[k] <= MAX_LENGTH }

  /** Write a run, as far as the table goes. */
  method FillRun(codeLength: array<nat>, i: nat, value: nat, count: nat, ghost before: seq<nat>, ghost done: seq<nat>)
    returns (next: nat)
    requires i == |done| <= codeLength.Length && Written(codeLength[..], before, done) && value <= MAX_LENGTH
    requires SmallTo(codeLength[..], i)
    modifies codeLength
    ensures Written(codeLength[..], before, done + Copies(value, count)) && next == Min(i + count, codeLength.Length)
    ensures SmallTo(codeLength[..], next)
  {
    next := i;
    var left := count;
    assert done + Copies(value, 0) == done;
    while left > 0 && next < codeLength.Length
      invariant i <= next <= codeLength.Length && 0 <= left && next - i + left == count
      invariant Written(codeLength[..], before, done + Copies(value, next - i)) && SmallTo(codeLength[..], next)
    {
      codeLength[next] := value;
      left := left - 1;
      next := next + 1;
    }
  }

  /** Write a length, alone or added to the one that is there. */
  method PutEntry(codeLength: array<nat>, i: nat, sym: nat, addOld: bool, ghost before: seq<nat>, ghost done: seq<nat>)
    requires i == |done| < codeLength.Length && Written(codeLength[..], before, done) && sym <= MAX_LENGTH
    requires SmallTo(codeLength[..], i)
    modifies codeLength
    ensures Written(codeLength[..], before, done + [Entry(before[i], sym, addOld)]) && SmallTo(codeLength[..], i + 1)
  {
    if addOld {
      codeLength[i] := (codeLength[i] + sym) % 16;
    } else {
      codeLength[i] := sym;
    }
  }

  /** Read the rest of a run, and write it. */
  method TakeRun(br: BitReader, sym: nat, codeLength: array<nat>, i: nat, ghost before: seq<nat>, ghost done: seq<nat>)
    returns (stop: Option<TableResult>, next: nat, ghost done': seq<nat>)
    requires br.Valid() && 16 <= sym && i == |done| < codeLength.Length
    requires Written(codeLength[..], before, done) && SmallTo(codeLength[..], i)
    modifies br.Parts(), codeLength
    ensures br.Valid() && br.Truncated() == old(br.Truncated()) && br.Beyond() == old(br.Beyond())
      && |br.Ahead()| <= |old(br.Ahead())|
    ensures Written(codeLength[..], before, done') && SmallTo(codeLength[..], next)
      && i <= next == Min(|done'|, codeLength.Length)
    ensures var k := RunBits(sym);
      if |old(br.Ahead())| < k then stop == Some(TableShort)
      else if sym < 18 && done == [] then stop == Some(TableInvalid)
      else
        stop == None && br.Ahead() == old(br.Ahead())[k..] && next > i
        && done' == done + Copies(if sym < 18 then done[|done| - 1] else 0, RunBase(sym) + Num(old(br.Ahead())[..k]))
  {
    hide BitReader.Valid;
    hide BitReader.Ahead;
    hide BitReader.Truncated;
    hide BitReader.Beyond;
    hide Num;
    hide Written;
    hide SmallTo;
    WrittenSmall(codeLength[..], before, done, i);
    stop, next, done' := None, i, done;
    var count := ReadRun(br, sym);
    if count == None {
      return Some(TableShort), i, done;
    }
    var value := 0;
    if sym < 18 {
      if i == 0 {
        return Some(TableInvalid), i, done;
      }
      value := codeLength[i - 1];
    }
    next := FillRun(codeLength, i, value, count.value, before, done);
    done' := done + Copies(value, count.value);
  }

  /** One entry, or one run, of the pure reading. */
  lemma EntriesStep(levels: Lengths, truncated: bool, ahead: seq<Bit>, before: seq<nat>, addOld: bool, done: seq<nat>)
    requires |done| < |before|
    ensures var r := ReadEntries(levels, truncated, ahead, before, addOld, done);
      var (res, rest) := ReadCode(levels, ahead, truncated);
      if !res.Symbol? then r == Short
      else if res.value < 16 then
        r == ReadEntries(levels, truncated, rest, before, addOld, done + [Entry(before[|done|], res.value, addOld)])
      else
        var k := RunBits(res.value);
        if |rest| < k then r == Short
        else if res.value < 18 && done == [] then r == Invalid
        else r == ReadEntries(levels, truncated, rest[k..], before, addOld,
                              done + Copies(if res.value < 18 then done[|done| - 1] else 0,
                                            RunBase(res.value) + Num(rest[..k])))
  {
    hide ReadCode;
    hide Num;
  }

  lemma ReadCodeIs(lengths: Lengths, ahead: seq<Bit>, truncated: bool, res: SymResult, used: nat)
    requires (res, used) == Reading(lengths, ahead, truncated) && used <= |ahead|
    ensures ReadCode(lengths, ahead, truncated) == (res, ahead[used..])
  {
    hide Reading;
  }

  /** What a refused table comes to. */
  function FaultOf(r: TableRead): TableResult {
    if r.Invalid? then TableInvalid else TableShort
  }

  /** Read one entry, or one run. */
  method ReadOne(br: BitReader, bl: HuffmanDecoder, codeLength: array<nat>, addOld: bool, i: nat,
                 ghost before: seq<nat>, ghost done: seq<nat>)
    returns (stop: Option<TableResult>, next: nat, ghost done': seq<nat>)
    requires br.Valid() && bl.Valid() && codeLength !in bl.Tables() && i == |done| < codeLength.Length
    requires Written(codeLength[..], before, done) && SmallTo(codeLength[..], i)
    modifies br.Parts(), codeLength
    ensures br.Valid() && bl.Valid() && br.Truncated() == old(br.Truncated()) && br.Beyond() == old(br.Beyond())
    ensures |br.Ahead()| <= |old(br.Ahead())| && stop != Some(TableOk)
    ensures |before| == codeLength.Length && next >= i && (stop == None ==> next > i)
    ensures Written(codeLength[..], before, done') && SmallTo(codeLength[..], next)
      && next == Min(|done'|, codeLength.Length)
    ensures Kraft(bl.lengths) ==>
      var r := ReadEntries(bl.lengths, br.Truncated(), old(br.Ahead()), before, addOld, done);
      if stop.Some? then !r.Table? && stop.value == FaultOf(r)
      else r == ReadEntries(bl.lengths, br.Truncated(), br.Ahead(), before, addOld, done')
  {
    hide BitReader.Valid;
    hide BitReader.Ahead;
    hide BitReader.Truncated;
    hide BitReader.Beyond;
    hide HuffmanDecoder.Valid;
    hide Num;
    hide Kraft;
    hide Reading;
    hide Written;
    hide SmallTo;
    hide Entry;
    hide RunBits;
    hide RunBase;
    hide Copies;
    hide ReadCode;
    hide ReadEntries;
    WrittenSmall(codeLength[..], before, done, i);
    EntriesStep(bl.lengths, br.Truncated(), br.Ahead(), before, addOld, done);
    var l, used := bl.ReadSym(br);
    if Kraft(bl.lengths) {
      ReadCodeIs(bl.lengths, old(br.Ahead()), br.Truncated(), l, used);
    }
    if !l.Symbol? {
      return Some(TableShort), i, done;
    }
    if l.value < 16 {
      PutEntry(codeLength, i, l.value, addOld, before, done);
      return None, i + 1, done + [Entry(before[i], l.value, addOld)];
    }
    stop, next, done' := TakeRun(br, l.value, codeLength, i, before, done);
  }

  /** Read entries with the small code. */
  method ReadTable(br: BitReader, bl: HuffmanDecoder, codeLength: array<nat>, addOld: bool) returns (res: TableResult)
    requires br.Valid() && bl.Valid() && codeLength !in bl.Tables()
    modifies br.Parts(), codeLength
    ensures br.Valid() && br.Truncated() == old(br.Truncated()) && br.Beyond() == old(br.Beyond())
      && |br.Ahead()| <= |old(br.Ahead())|
    ensures Small(old(codeLength[..])) || res == TableOk ==> Small(codeLength[..])
    ensures Kraft(bl.lengths) ==>
      AgreesTable(res, ReadEntries(bl.lengths, br.Truncated(), old(br.Ahead()), old(codeLength[..]), addOld, []),
                  codeLength[..], br.Ahead())
  {
    hide BitReader.Valid;
    hide BitReader.Ahead;
    hide BitReader.Truncated;
    hide BitReader.Beyond;
    hide HuffmanDecoder.Valid;
    hide Kraft;
    hide ReadEntries;
    hide Written;
    hide Small;
    hide SmallTo;
    ghost var before, done: seq<nat> := codeLength[..], [];
    ghost var all := ReadEntries(bl.lengths, br.Truncated(), br.Ahead(), before, addOld, []);
    WrittenStart(before);
    var i := 0;
    while i < codeLength.Length
      invariant br.Valid() && bl.Valid() && br.Truncated() == old(br.Truncated()) && br.Beyond() == old(br.Beyond())
      invariant |br.Ahead()| <= |old(br.Ahead())|
      invariant i == Min(|done|, codeLength.Length) && Written(codeLength[..], before, done)
        && SmallTo(codeLength[..], i)
      invariant Kraft(bl.lengths) ==> all == ReadEntries(bl.lengths, br.Truncated(), br.Ahead(), before, addOld, done)
      decreases codeLength.Length - i
    {
      var stop;
      stop, i, done := ReadOne(br, bl, codeLength, addOld, i, before, done);
      WrittenSmall(codeLength[..], before, done, i);
      if stop.Some? {
        return stop.value;
      }
    }
    WrittenAll(codeLength[..], before, done);
    EntriesEnd(bl.lengths, br.Truncated(), br.Ahead(), before, addOld, done);
    res := TableOk;
  }

  lemma EntriesEnd(levels: Lengths, truncated: bool, ahead: seq<Bit>, before: seq<nat>, addOld: bool, done: seq<nat>)
    requires |done| >= |before|
    ensures ReadEntries(levels, truncated, ahead, before, addOld, done) == Table(done[..|before|], ahead)
  {}

  lemma WrittenStart(before: seq<nat>)
    ensures Written(before, before, []) && SmallTo(before, 0)
  {}

  /** What is written is small, and with a small table to begin with so is the rest. */
  lemma WrittenSmall(table: seq<nat>, before: seq<nat>, done: seq<nat>, i: nat)
    requires Written(table, before, done) && SmallTo(table, i) && i == Min(|done|, |table|)
    ensures Small(before) ==> Small(table)
    ensures 0 < i <= |done| ==> table[i - 1] == done[i - 1] <= MAX_LENGTH
    ensures |table| == |before|
  {}

  lemma WrittenAll(table: seq<nat>, before: seq<nat>, done: seq<nat>)
    requires Written(table, before, done) && SmallTo(table, |table|) && |done| >= |before|
    ensures table == done[..|before|] && Small(table)
  {}

  /** Read a table of code lengths over the one that is there. */
  method ReadCodeLengthTable(br: BitReader, codeLength: array<nat>, addOld: bool) returns (res: TableResult)
    requires br.Valid()
    modifies br.Parts(), codeLength
    ensures br.Valid() && br.Truncated() == old(br.Truncated()) && br.Beyond() == old(br.Beyond())
      && |br.Ahead()| <= |old(br.Ahead())|
    ensures Small(old(codeLength[..])) || res == TableOk ==> Small(codeLength[..])
    ensures LevelsFit(old(br.Ahead())) ==>
      AgreesTable(res, ReadLengths(br.Truncated(), old(br.Ahead()), old(codeLength[..]), addOld), codeLength[..],
                  br.Ahead())
  {
    hide BitReader.Valid;
    hide BitReader.Ahead;
    hide BitReader.Truncated;
    hide BitReader.Beyond;
    hide HuffmanDecoder.Valid;
    hide Kraft;
    hide ReadLevels;
    hide ReadEntries;
    hide Small;
    var ok, bitlength := ReadLevelTable(br);
    if !ok {
      return TableShort;
    }
    SmallLengths(bitlength[..]);
    var bl := new HuffmanDecoder();
    bl.Init(bitlength[..]);
    res := ReadTable(br, bl, codeLength, addOld);
  }

  lemma SmallLengths(s: seq<nat>)
    requires Small(s)
    ensures forall k :: 0 <= k < |s| ==> s[k] <= MAX_LENGTH
  {}

  /** What was written for a table is read back, to the last bit, whatever the table was before, and however the lengths
      of the small code were written. */
  lemma TableRoundTrip(pieces: seq<Level>, runs: seq<Run>, rest: seq<Bit>, before: seq<nat>, addOld: bool)
    requires LevelsFill(pieces, 0) && Kraft(LevelsOf(pieces))
    requires (forall k :: 0 <= k < |runs| ==> Writable(LevelsOf(pieces), runs[k]))
      && Fills(LevelsOf(pieces), runs, before, addOld, [])
    ensures forall k :: 0 <= k < |pieces| ==> LevelWritable(pieces[k])
    ensures |AllEntries(runs, before, addOld, [])| >= |before|
    ensures ReadLengths(false, WriteLevels(pieces) + (WriteRuns(LevelsOf(pieces), runs) + rest), before, addOld)
      == Table(AllEntries(runs, before, addOld, [])[..|before|], rest)
  {
    hide Kraft;
    hide ReadEntries;
    var levels := LevelsOf(pieces);
    ReadsLevels(pieces, WriteRuns(levels, runs) + rest, []);
    assert [] + AllLengths(pieces) == AllLengths(pieces);
    ReadsRuns(levels, runs, rest, before, addOld, []);
  }

  /** Added to the old entry, the symbols 0 to 15 count on from it modulo 16; without the old table a symbol is the
      length itself. */
  lemma EntryReaches(previous: nat, target: nat)
    requires target <= 15
    ensures Entry(previous, 0, true) == previous % 16 && Entry(previous, target, false) == target
    ensures forall sym: nat :: sym < 15 ==> Entry(previous, sym + 1, true) == (Entry(previous, sym, true) + 1) % 16
    ensures exists sym: nat :: sym < 16 && Entry(previous, sym, true) == target
  {
    forall sym: nat | sym < 15 ensures Entry(previous, sym + 1, true) == (Entry(previous, sym, true) + 1) % 16 {
      OneOn(previous + sym);
    }
    var sym := (target - previous) % 16;
    Meets(previous, target);
    assert Entry(previous, sym, true) == target;
  }

  lemma OneOn(s: nat)
    ensures (s + 1) % 16 == (s % 16 + 1) % 16
  {
    var q, r := s / 16, s % 16;
    assert s == q * 16 + r;
    DivModUnique(s + 1, if r < 15 then q else q + 1, 16, if r < 15 then r + 1 else 0);
  }

  lemma Meets(previous: nat, target: nat)
    requires target <= 15
    ensures (previous + (target - previous) % 16) % 16 == target
  {
    var x := target - previous;
    var q := x / 16;
    assert x == q * 16 + x % 16;
    DivModUnique(previous + x % 16, -q, 16, target);
  }
}

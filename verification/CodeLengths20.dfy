/** Reading a table of code lengths of RAR 2.0: lengths are added to the old ones, and runs have their own symbols. */
module CodeLengths20 {
  import opened Machine
  import opened Bits
  import opened BitStrings
  import opened BitReaders
  import opened Canonical
  import opened Huffman
  import opened LzTables
  import opened CodeLengths

  const LEVELS_20 := 19

  /** The lengths of the small code, four bits each. */
  function ReadFours(ahead: seq<Bit>, done: Lengths): (r: Option<(Lengths, seq<Bit>)>)
    ensures r.Some? ==> |r.value.0| == LEVELS_20
    decreases |ahead|
  {
    if |done| >= LEVELS_20 then Some((done[..LEVELS_20], ahead))
    else if |ahead| < 4 then None
    else
      FourBits(ahead[..4]);
      ReadFours(ahead[4..], done + [Num(ahead[..4])])
  }

  function Bits20(sym: nat): nat { if sym == 16 then 2 else if sym == 17 then 3 else 7 }

  function Base20(sym: nat): nat { if sym < 18 then 3 else 11 }

  /** The entries: a length added to the old one, or a run of the one before, or a run of zeros. */
  function ReadEntries20(levels: Lengths, ahead: seq<Bit>, before: seq<nat>, done: seq<nat>): TableRead
    decreases |ahead|
  {
    if |done| >= |before| then Table(done[..|before|], ahead)
    else
      match ReadSymbol(levels, ahead)
      case Part(sym, rest) =>
        if sym < 16 then ReadEntries20(levels, rest, before, done + [Entry(before[|done|], sym, true)])
        else if sym == 16 && done == [] then Invalid
        else
          (match ReadExtra(rest, Bits20(sym))
           case Part(n, rest') =>
             var value := if sym == 16 then done[|done| - 1] else 0;
             ReadEntries20(levels, rest', before, done + Copies(value, Base20(sym) + n))
           case _ => Short)
      case _ => Short
  }

  function ReadLengths20(ahead: seq<Bit>, before: seq<nat>): TableRead {
    var levels := ReadFours(ahead, []);
    if levels == None then Short else ReadEntries20(levels.value.0, levels.value.1, before, [])
  }

  predicate LevelsFit20(ahead: seq<Bit>) {
    var levels := ReadFours(ahead, []);
    levels.Some? ==> Kraft(levels.value.0)
  }

  // Writing a table.

  /** A length, or a run of 3 to 6 entries like the one before, or of up to 138 zeros. */
  datatype Run20 = One20(sym: nat) | Same20(count: nat) | Zeros20(count: nat)

  function Symbol20(run: Run20): nat {
    match run
    case One20(sym) => sym
    case Same20(_) => 16
    case Zeros20(count) => if count <= 10 then 17 else 18
  }

  ghost predicate Writable20(levels: Lengths, run: Run20) {
    && Symbol20(run) < |levels| && levels[Symbol20(run)] > 0
    && match run
       case One20(sym) => sym < 16
       case Same20(count) => 3 <= count <= 6
       case Zeros20(count) => 3 <= count <= 138
  }

  ghost function WriteRun20(levels: Lengths, run: Run20): seq<Bit>
    requires Writable20(levels, run)
  {
    var sym := Symbol20(run);
    Code(levels, sym) + if run.One20? then [] else ToBits(run.count - Base20(sym), Bits20(sym))
  }

  /** What a run adds to the entries. */
  function Entries20(run: Run20, before: seq<nat>, done: seq<nat>): seq<nat>
    requires |done| < |before|
  {
    match run
    case One20(sym) => done + [Entry(before[|done|], sym, true)]
    case Same20(count) => done + Copies(if done == [] then 0 else done[|done| - 1], count)
    case Zeros20(count) => done + Copies(0, count)
  }

  /** The runs fill the table from where it is, each of them needed. */
  ghost predicate Fills20(levels: Lengths, runs: seq<Run20>, before: seq<nat>, done: seq<nat>)
    decreases |runs|
  {
    if runs == [] then |done| >= |before|
    else
      && |done| < |before| && Writable20(levels, runs[0]) && (runs[0].Same20? ==> done != [])
      && Fills20(levels, runs[1..], before, Entries20(runs[0], before, done))
  }

  ghost function WriteRuns20(levels: Lengths, runs: seq<Run20>, before: seq<nat>, done: seq<nat>): seq<Bit>
    requires Fills20(levels, runs, before, done)
    decreases |runs|
  {
    if runs == [] then []
    else WriteRun20(levels, runs[0]) + WriteRuns20(levels, runs[1..], before, Entries20(runs[0], before, done))
  }

  function AllEntries20(runs: seq<Run20>, before: seq<nat>, done: seq<nat>): seq<nat>
    decreases |runs|
  {
    if runs == [] || |done| >= |before| then done else AllEntries20(runs[1..], before, Entries20(runs[0], before, done))
  }

  /** One entry, or one run, of the pure reading. */
  lemma EntriesStep20(levels: Lengths, ahead: seq<Bit>, before: seq<nat>, done: seq<nat>)
    requires |done| < |before|
    ensures var r := ReadEntries20(levels, ahead, before, done);
      match ReadSymbol(levels, ahead) {
        case Part(sym, rest) =>
          if sym < 16 then r == ReadEntries20(levels, rest, before, done + [Entry(before[|done|], sym, true)])
          else if sym == 16 && done == [] then r == Invalid
          else
            match ReadExtra(rest, Bits20(sym)) {
              case Part(n, rest') =>
                r == ReadEntries20(levels, rest', before,
                                   done + Copies(if sym == 16 then done[|done| - 1] else 0, Base20(sym) + n))
              case _ => r == Short
            }
        case _ => r == Short
      }
  {
    hide ReadSymbol;
    hide ReadExtra;
  }

  lemma ReadsExtra(x: nat, k: nat, rest: seq<Bit>)
    requires x < Pow2(k)
    ensures ReadExtra(ToBits(x, k) + rest, k) == Part(x, rest)
  {
    ReadsNumber(x, k, rest);
  }

  lemma CopiesStep20(levels: Lengths, ahead: seq<Bit>, sym: nat, extra: seq<Bit>, n: nat, rest: seq<Bit>,
                     before: seq<nat>, done: seq<nat>)
    requires |done| < |before| && sym >= 16 && (sym == 16 ==> done != [])
    requires ReadSymbol(levels, ahead) == Part(sym, extra) && ReadExtra(extra, Bits20(sym)) == Part(n, rest)
    ensures ReadEntries20(levels, ahead, before, done)
      == ReadEntries20(levels, rest, before, done + Copies(if sym == 16 then done[|done| - 1] else 0, Base20(sym) + n))
  {
    hide *;
    EntriesStep20(levels, ahead, before, done);
  }

  lemma ReadsCopies(levels: Lengths, sym: nat, n: nat, rest: seq<Bit>, before: seq<nat>, done: seq<nat>)
    requires Kraft(levels) && 16 <= sym < |levels| && levels[sym] > 0 && n < Pow2(Bits20(sym))
    requires |done| < |before| && (sym == 16 ==> done != [])
    ensures ReadEntries20(levels, Code(levels, sym) + (ToBits(n, Bits20(sym)) + rest), before, done)
      == ReadEntries20(levels, rest, before, done + Copies(if sym == 16 then done[|done| - 1] else 0, Base20(sym) + n))
  {
    hide *;
    var extra := ToBits(n, Bits20(sym)) + rest;
    ReadsSymbol(levels, sym, extra);
    ReadsExtra(n, Bits20(sym), rest);
    CopiesStep20(levels, Code(levels, sym) + extra, sym, extra, n, rest, before, done);
  }

  lemma ReadsRun20(levels: Lengths, run: Run20, rest: seq<Bit>, before: seq<nat>, done: seq<nat>)
    requires Kraft(levels) && Writable20(levels, run) && |done| < |before| && (run.Same20? ==> done != [])
    ensures ReadEntries20(levels, WriteRun20(levels, run) + rest, before, done)
      == ReadEntries20(levels, rest, before, Entries20(run, before, done))
  {
    hide Kraft;
    hide Code;
    hide ReadSymbol;
    hide ToBits;
    hide Pow2;
    hide ReadEntries20;
    hide ReadExtra;
    hide Copies;
    hide Entry;
    var sym := Symbol20(run);
    if run.One20? {
      EntriesStep20(levels, Code(levels, sym) + rest, before, done);
      ReadsSymbol(levels, sym, rest);
      assert Code(levels, sym) + [] == Code(levels, sym);
    } else {
      var n := run.count - Base20(sym);
      var count := ToBits(n, Bits20(sym));
      Powers();
      ReadsCopies(levels, sym, n, rest, before, done);
      assert Code(levels, sym) + count + rest == Code(levels, sym) + (count + rest);
    }
  }

  lemma {:induction false} ReadsRuns20(levels: Lengths, runs: seq<Run20>, rest: seq<Bit>, before: seq<nat>,
                                       done: seq<nat>)
    requires Kraft(levels) && Fills20(levels, runs, before, done)
    ensures |AllEntries20(runs, before, done)| >= |before|
    ensures ReadEntries20(levels, WriteRuns20(levels, runs, before, done) + rest, before, done)
      == Table(AllEntries20(runs, before, done)[..|before|], rest)
    decreases |runs|
  {
    hide Kraft;
    hide Writable20;
    hide WriteRun20;
    if runs == [] {
      assert WriteRuns20(levels, runs, before, done) + rest == rest;
    } else {
      var done' := Entries20(runs[0], before, done);
      var more := WriteRuns20(levels, runs[1..], before, done');
      assert WriteRun20(levels, runs[0]) + more + rest == WriteRun20(levels, runs[0]) + (more + rest);
      ReadsRun20(levels, runs[0], more + rest, before, done);
      ReadsRuns20(levels, runs[1..], rest, before, done');
    }
  }

  function WriteFours(levels: Lengths): seq<Bit> {
    if levels == [] then [] else ToBits(levels[0], 4) + WriteFours(levels[1..])
  }

  lemma {:induction false} ReadsFours(levels: Lengths, rest: seq<Bit>, done: Lengths)
    requires |done| + |levels| == LEVELS_20
    ensures ReadFours(WriteFours(levels) + rest, done) == Some((done + levels, rest))
    decreases |levels|
  {
    hide ToBits;
    hide Num;
    if levels == [] {
      assert WriteFours(levels) + rest == rest && done + levels == done && done[..LEVELS_20] == done;
    } else {
      var more := WriteFours(levels[1..]) + rest;
      assert WriteFours(levels) + rest == ToBits(levels[0], 4) + more;
      assert Pow2(4) == 16;
      ReadsNumber(levels[0], 4, more);
      ReadsFours(levels[1..], rest, done + [levels[0]]);
      assert done + [levels[0]] + levels[1..] == done + levels;
    }
  }

  /** What was written for a table is read back, to the last bit. */
  lemma TableRoundTrip20(levels: Lengths, runs: seq<Run20>, rest: seq<Bit>, before: seq<nat>)
    requires |levels| == 19 && Kraft(levels) && Fills20(levels, runs, before, [])
    ensures |AllEntries20(runs, before, [])| >= |before|
    ensures ReadLengths20(WriteFours(levels) + (WriteRuns20(levels, runs, before, []) + rest), before)
      == Table(AllEntries20(runs, before, [])[..|before|], rest)
  {
    hide Kraft;
    hide ReadFours;
    hide ReadEntries20;
    ReadsFours(levels, WriteRuns20(levels, runs, before, []) + rest, []);
    assert [] + levels == levels;
    ReadsRuns20(levels, runs, rest, before, []);
  }

  // The reader.

  /** Read the lengths of the small code. */
  method ReadFourTable(br: RarBitReader) returns (ok: bool, bitlength: array<nat>)
    requires br.Valid()
    modifies br, br.r
    ensures br.Valid()
    ensures fresh(bitlength) && bitlength.Length == LEVELS_20 && Small(bitlength[..])
    ensures var r := ReadFours(old(br.Ahead()), []);
      if r == None then !ok else ok && bitlength[..] == r.value.0 && br.Ahead() == r.value.1
  {
    hide RarBitReader.Valid;
    hide RarBitReader.Ahead;
    hide Num;
    bitlength := new nat[LEVELS_20](_ => 0);
    ghost var ahead, done: Lengths := br.Ahead(), [];
    for i := 0 to LEVELS_20
      invariant br.Valid() && i == |done|
      invariant forall k :: 0 <= k < LEVELS_20 ==> bitlength[k] == if k < i then done[k] else 0
      invariant ReadFours(ahead, []) == ReadFours(br.Ahead(), done)
    {
      ghost var here := br.Ahead();
      if |here| >= 4 { FourBits(here[..4]); }
      var n := br.ReadBits(4);
      if n == None {
        return false, bitlength;
      }
      bitlength[i] := n.value;
      done := done + [n.value];
    }
    assert bitlength[..] == done[..LEVELS_20];
    ok := true;
  }

  /** Read the rest of a run, and write it. */
  method TakeRun20(br: RarBitReader, sym: nat, codeLength: array<nat>, i: nat, ghost before: seq<nat>,
                   ghost done: seq<nat>)
    returns (stop: Option<TableResult>, next: nat, ghost done': seq<nat>)
    requires br.Valid() && 16 <= sym && i == |done| < codeLength.Length
    requires Written(codeLength[..], before, done) && SmallTo(codeLength[..], i)
    modifies br, br.r, codeLength
    ensures br.Valid()
    ensures Written(codeLength[..], before, done') && SmallTo(codeLength[..], next)
      && i <= next == Min(|done'|, codeLength.Length)
    ensures
      if sym == 16 && done == [] then stop == Some(TableInvalid)
      else
        match ReadExtra(old(br.Ahead()), Bits20(sym)) {
          case Part(n, rest) =>
            stop == None && br.Ahead() == rest && next > i
            && done' == done + Copies(if sym == 16 then done[|done| - 1] else 0, Base20(sym) + n)
          case _ => stop == Some(TableShort)
        }
  {
    hide RarBitReader.Valid;
    hide RarBitReader.Ahead;
    hide ReadExtra;
    hide Written;
    hide SmallTo;
    WrittenSmall(codeLength[..], before, done, i);
    stop, next, done' := None, i, done;
    var value := 0;
    if sym == 16 {
      if i == 0 {
        return Some(TableInvalid), i, done;
      }
      value := codeLength[i - 1];
    }
    var n := TakeExtra(br, if sym == 16 then 2 else if sym == 17 then 3 else 7);
    if !n.Took? {
      return Some(TableShort), i, done;
    }
    var count := n.value + if sym < 18 then 3 else 11;
    next := FillRun(codeLength, i, value, count, before, done);
    done' := done + Copies(value, count);
  }

  /** Read one entry, or one run. */
  method ReadOne20(br: RarBitReader, bl: HuffmanDecoder, codeLength: array<nat>, i: nat, ghost before: seq<nat>,
                   ghost done: seq<nat>)
    returns (stop: Option<TableResult>, next: nat, ghost done': seq<nat>)
    requires br.Valid() && bl.Valid() && codeLength !in bl.Tables() && i == |done| < codeLength.Length
    requires Written(codeLength[..], before, done) && SmallTo(codeLength[..], i)
    modifies br, br.r, codeLength
    ensures br.Valid() && bl.Valid() && stop != Some(TableOk)
    ensures |before| == codeLength.Length && next >= i && (stop == None ==> next > i)
    ensures Written(codeLength[..], before, done') && SmallTo(codeLength[..], next)
      && next == Min(|done'|, codeLength.Length)
    ensures Kraft(bl.lengths) ==>
      var r := ReadEntries20(bl.lengths, old(br.Ahead()), before, done);
      if stop.Some? then !r.Table? && stop.value == FaultOf(r)
      else r == ReadEntries20(bl.lengths, br.Ahead(), before, done')
  {
    hide RarBitReader.Valid;
    hide RarBitReader.Ahead;
    hide HuffmanDecoder.Valid;
    hide Kraft;
    hide Written;
    hide SmallTo;
    hide Entry;
    hide Bits20;
    hide Base20;
    hide Copies;
    hide ReadSymbol;
    hide ReadExtra;
    hide ReadEntries20;
    WrittenSmall(codeLength[..], before, done, i);
    EntriesStep20(bl.lengths, br.Ahead(), before, done);
    var l := TakeSymbol(br, bl);
    if !l.Took? {
      return Some(TableShort), i, done;
    }
    if l.value < 16 {
      PutEntry(codeLength, i, l.value, true, before, done);
      return None, i + 1, done + [Entry(before[i], l.value, true)];
    }
    stop, next, done' := TakeRun20(br, l.value, codeLength, i, before, done);
  }

  /** Read entries with the small code. */
  method ReadTable20(br: RarBitReader, bl: HuffmanDecoder, codeLength: array<nat>) returns (res: TableResult)
    requires br.Valid() && bl.Valid() && codeLength !in bl.Tables()
    modifies br, br.r, codeLength
    ensures br.Valid()
    ensures Small(old(codeLength[..])) || res == TableOk ==> Small(codeLength[..])
    ensures Kraft(bl.lengths) ==>
      AgreesTable(res, ReadEntries20(bl.lengths, old(br.Ahead()), old(codeLength[..]), []), codeLength[..], br.Ahead())
  {
    hide RarBitReader.Valid;
    hide RarBitReader.Ahead;
    hide HuffmanDecoder.Valid;
    hide Kraft;
    hide ReadEntries20;
    hide Written;
    hide Small;
    hide SmallTo;
    ghost var before, done: seq<nat> := codeLength[..], [];
    ghost var all := ReadEntries20(bl.lengths, br.Ahead(), before, []);
    WrittenStart(before);
    var i := 0;
    while i < codeLength.Length
      invariant br.Valid() && bl.Valid()
      invariant i == Min(|done|, codeLength.Length) && Written(codeLength[..], before, done)
        && SmallTo(codeLength[..], i)
      invariant Kraft(bl.lengths) ==> all == ReadEntries20(bl.lengths, br.Ahead(), before, done)
      decreases codeLength.Length - i
    {
      var stop;
      stop, i, done := ReadOne20(br, bl, codeLength, i, before, done);
      WrittenSmall(codeLength[..], before, done, i);
      if stop.Some? {
        return stop.value;
      }
    }
    WrittenAll(codeLength[..], before, done);
    EntriesEnd20(bl.lengths, br.Ahead(), before, done);
    res := TableOk;
  }

  lemma EntriesEnd20(levels: Lengths, ahead: seq<Bit>, before: seq<nat>, done: seq<nat>)
    requires |done| >= |before|
    ensures ReadEntries20(levels, ahead, before, done) == Table(done[..|before|], ahead)
  {}

  /** Read a table of code lengths over the one that is there. */
  method ReadCodeLengthTable20(br: RarBitReader, table: array<nat>) returns (res: TableResult)
    requires br.Valid()
    modifies br, br.r, table
    ensures br.Valid()
    ensures Small(old(table[..])) || res == TableOk ==> Small(table[..])
    ensures LevelsFit20(old(br.Ahead())) ==>
      AgreesTable(res, ReadLengths20(old(br.Ahead()), old(table[..])), table[..], br.Ahead())
  {
    hide RarBitReader.Valid;
    hide RarBitReader.Ahead;
    hide HuffmanDecoder.Valid;
    hide Kraft;
    hide ReadFours;
    hide ReadEntries20;
    hide Small;
    var ok, bitlength := ReadFourTable(br);
    if !ok {
      return TableShort;
    }
    SmallLengths(bitlength[..]);
    var bl := new HuffmanDecoder();
    bl.Init(bitlength[..]);
    res := ReadTable20(br, bl, table);
  }
}

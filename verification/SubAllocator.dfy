/** The PPM sub-allocator: 39 size-class free lists, a two-ended gap, and a byte heap, in one array of cells. */
module SubAllocators {
  import opened Machine
  import opened SizeClasses
  import opened Tiling
  import opened FreeLists
  import opened ByteHeap
  import C = Contexts

  const UNIT_SIZE := 12

  /** A size-1 to size-38 list index. Class 0 is the empty block and its list stays empty. */
  type Class = i: nat | 1 <= i < CLASS_COUNT witness 1

  ghost function LiveOf(size: Layout, slot: map<int, Slot>, held: set<int>): Layout {
    size - (slot.Keys + held)
  }

  /** Every block but n is still there, still free or still not; any new block is free, and so is n. */
  ghost predicate OthersKept(size: Layout, size': Layout, slot: map<int, Slot>, slot': map<int, Slot>, n: int) {
    && (forall a :: a in size && a != n ==> a in size' && size'[a] == size[a] && (a in slot' <==> a in slot))
    && (forall a :: a in size' && (a !in size || a == n) ==> a in slot')
  }

  lemma LiveKept(size: Layout, size': Layout, slot: map<int, Slot>, slot': map<int, Slot>, held: set<int>, n: int)
    requires OthersKept(size, size', slot, slot', n) && n in held
    ensures LiveOf(size', slot', held - {n}) == LiveOf(size, slot, held)
  {
    var before, after := LiveOf(size, slot, held), LiveOf(size', slot', held - {n});
    assert forall a :: a in after <==> a in before;
    assert forall a :: a in before ==> after[a] == before[a];
  }

  /** The u units from a on are listed in pieces, each of the largest size that fits in what is left. */
  ghost predicate Cut(size: Layout, slot: map<int, Slot>, a: int, u: nat)
    decreases u
  {
    u == 0
    || (a in slot && a in size && size[a] == FirstPiece(u) && 0 < FirstPiece(u) <= u
        && Cut(size, slot, a + 2 * FirstPiece(u), u - FirstPiece(u)))
  }

  lemma {:induction false} CutKept(size: Layout, slot: map<int, Slot>, size': Layout, slot': map<int, Slot>, a: int,
                                   u: nat)
    requires Cut(size, slot, a, u)
    requires forall b :: a <= b < a + 2 * u && b in slot && b in size ==>
      b in slot' && b in size' && size'[b] == size[b]
    ensures Cut(size', slot', a, u)
    decreases u
  {
    hide FirstPiece;
    if u > 0 {
      CutKept(size, slot, size', slot', a + 2 * FirstPiece(u), u - FirstPiece(u));
    }
  }

  lemma CutFirst(size: Layout, slot: map<int, Slot>, a: int, u: nat)
    requires Cut(size, slot, a, u) && u > 0
    ensures a in slot && a in size && size[a] == FirstPiece(u)
  {
    hide FirstPiece;
  }

  /** A listed size in one piece. */
  lemma CutOne(size: Layout, slot: map<int, Slot>, a: int, u: nat)
    requires 1 <= u <= MAX_UNITS && Units(ClassOf(u)) == u && a in slot && a in size && size[a] == u
    ensures Cut(size, slot, a, u)
  {}

  /** Another size in two. */
  lemma CutTwo(size: Layout, slot: map<int, Slot>, a: int, u: nat, k: nat)
    requires 1 <= u <= MAX_UNITS && Units(ClassOf(u)) != u && ClassOf(u) > 0 && k == Units(ClassOf(u) - 1) < u && k > 0
    requires a in slot && a in size && size[a] == k && Units(ClassOf(u - k)) == u - k
    requires a + 2 * k in slot && a + 2 * k in size && size[a + 2 * k] == u - k
    ensures Cut(size, slot, a, u)
  {
    hide Units;
    hide ClassOf;
    CutOne(size, slot, a + 2 * k, u - k);
  }

  /** Largest pieces stand in a row from n to m. */
  ghost predicate Row(size: Layout, slot: map<int, Slot>, n: int, m: int) {
    n <= m && (m - n) % (2 * MAX_UNITS) == 0
    && forall b :: n <= b < m && (b - n) % (2 * MAX_UNITS) == 0 ==> b in slot && b in size && size[b] == MAX_UNITS
  }

  lemma {:induction false} RowCut(size: Layout, slot: map<int, Slot>, n: int, m: int, u: nat)
    requires Row(size, slot, n, m) && Cut(size, slot, m, u) && u > 0
    ensures Cut(size, slot, n, (m - n) / 2 + u)
    decreases m - n
  {
    hide Units;
    hide ClassOf;
    hide Row;
    hide FirstPiece;
    RowOrder(size, slot, n, m);
    if n < m {
      LargestFirst((m - n) / 2 + u);
      RowFirst(size, slot, n, m);
      RowCut(size, slot, n + 2 * MAX_UNITS, m, u);
      assert (m - n) / 2 == (m - (n + 2 * MAX_UNITS)) / 2 + MAX_UNITS;
    }
  }

  lemma RowOrder(size: Layout, slot: map<int, Slot>, n: int, m: int)
    requires Row(size, slot, n, m)
    ensures n <= m && (m == n || n + 2 * MAX_UNITS <= m)
  {}

  lemma LargestFirst(u: nat)
    requires u > MAX_UNITS
    ensures FirstPiece(u) == MAX_UNITS
  {}

  lemma RowFirst(size: Layout, slot: map<int, Slot>, n: int, m: int)
    requires Row(size, slot, n, m) && n < m
    ensures n + 2 * MAX_UNITS <= m && Row(size, slot, n + 2 * MAX_UNITS, m)
    ensures n in slot && n in size && size[n] == MAX_UNITS
  {
    assert n <= n < m && (n - n) % (2 * MAX_UNITS) == 0;
    forall b | n + 2 * MAX_UNITS <= b < m && (b - (n + 2 * MAX_UNITS)) % (2 * MAX_UNITS) == 0
      ensures b in slot && b in size && size[b] == MAX_UNITS {
      assert n <= b < m && (b - n) % (2 * MAX_UNITS) == 0;
    }
  }

  lemma RowMore(size: Layout, slot: map<int, Slot>, size': Layout, slot': map<int, Slot>, n: int, m: int)
    requires Row(size, slot, n, m) && m in size && MAX_UNITS < size[m] && Disjoint(size)
    requires size' == Split(size, m, MAX_UNITS) && slot'.Keys == slot.Keys + {m} && m + 2 * MAX_UNITS !in size
    ensures Row(size', slot', n, m + 2 * MAX_UNITS)
  {}

  lemma RowKept(size: Layout, slot: map<int, Slot>, size': Layout, slot': map<int, Slot>, n: int, m: int)
    requires Row(size, slot, n, m) && OthersKept(size, size', slot, slot', m)
    ensures Row(size', slot', n, m)
  {}

  /** Every block that was held is listed in the largest pieces. */
  ghost predicate Recut(size0: Layout, held0: set<int>, size: Layout, slot: map<int, Slot>) {
    forall a :: a in held0 && a in size0 ==> Cut(size, slot, a, size0[a])
  }

  /** Every block that was held and is not any more is; the others are as they were. */
  ghost predicate RecutBut(size0: Layout, held0: set<int>, held: set<int>, size: Layout, slot: map<int, Slot>) {
    forall a :: a in held0 && a in size0 ==>
      if a in held then a in size && size[a] == size0[a] else Cut(size, slot, a, size0[a])
  }

  lemma RecutStart(size: Layout, held: set<int>, slot: map<int, Slot>)
    ensures RecutBut(size, held, held, size, slot)
  {}

  lemma RecutOne(size0: Layout, held0: set<int>, held: set<int>, size: Layout, slot: map<int, Slot>, size': Layout,
                 slot': map<int, Slot>, n: int)
    requires RecutBut(size0, held0, held, size, slot) && n in held && n in size && n !in slot
    requires OthersKept(size, size', slot, slot', n) && Cut(size', slot', n, size[n])
    ensures RecutBut(size0, held0, held - {n}, size', slot')
  {
    hide Cut;
    forall a | a in held0 && a in size0 && a !in held ensures Cut(size', slot', a, size0[a]) {
      CutKept(size, slot, size', slot', a, size0[a]);
    }
  }

  lemma RecutEnd(size0: Layout, held0: set<int>, size: Layout, slot: map<int, Slot>)
    requires RecutBut(size0, held0, {}, size, slot)
    ensures Recut(size0, held0, size, slot)
  {}

  ghost predicate OnlyLinked(mem: Memory, mem': Memory, n: int, u: int) {
    && |mem'| == |mem|
    && forall j :: 0 <= j < |mem| ==>
         mem'[j] == mem[j] || (n <= j < n + 2 * u && j % 2 == 0 && 0 <= mem'[j].succ)
  }

  /** Largest pieces were cut off the block at n and listed; what is left of it stands at m. */
  ghost predicate CutOff(size: Layout, size': Layout, held: set<int>, slot: map<int, Slot>, slot': map<int, Slot>,
                         n: int, m: int) {
    && n in size && m in size' && n <= m && BlockEnd(size', m) == BlockEnd(size, n)
    && (if m == n then size'[n] == size[n]
        else m !in size && m !in held && n in slot' && n in size' && size'[n] == MAX_UNITS < size[n])
    && (forall a :: a in size && a != n ==> a in size' && size'[a] == size[a] && (a in slot' <==> a in slot))
    && forall a :: a in size' && (a !in size || a == n) && a != m ==> a in slot'
  }

  lemma CutMore(size0: Layout, size: Layout, size': Layout, held: set<int>, slot0: map<int, Slot>, slot: map<int, Slot>,
                slot': map<int, Slot>, n: int, m: int)
    requires CutOff(size0, size, held, slot0, slot, n, m) && MAX_UNITS < size[m] && m + 2 * MAX_UNITS !in size
    requires m + 2 * MAX_UNITS !in held
    requires size' == Split(size, m, MAX_UNITS) && slot'.Keys == slot.Keys + {m}
    ensures CutOff(size0, size', held, slot0, slot', n, m + 2 * MAX_UNITS)
  {}

  lemma CutLast(size0: Layout, size: Layout, size': Layout, held: set<int>, slot0: map<int, Slot>, slot: map<int, Slot>,
                slot': map<int, Slot>, n: int, m: int)
    requires CutOff(size0, size, held, slot0, slot, n, m) && size[m] <= MAX_UNITS
    requires OthersKept(size, size', slot, slot', m) && m in slot'
    ensures OthersKept(size0, size', slot0, slot', n)
  {}

  lemma LinkedMore(mem0: Memory, mem: Memory, mem': Memory, size0: Layout, size: Layout, n: int, m: int)
    requires n in size0 && m in size && n <= m && m % 2 == 0 && BlockEnd(size, m) == BlockEnd(size0, n) && 0 < size[m]
    requires OnlyLinked(mem0, mem, n, size0[n]) && 0 <= m < |mem|
    requires exists s: State :: 0 <= s.succ && mem' == mem[m := s]
    ensures OnlyLinked(mem0, mem', n, size0[n])
  {}

  lemma LinkedLast(mem0: Memory, mem: Memory, mem': Memory, size0: Layout, size: Layout, n: int, m: int)
    requires n in size0 && m in size && n <= m && BlockEnd(size, m) == BlockEnd(size0, n)
    requires OnlyLinked(mem0, mem, n, size0[n]) && OnlyLinked(mem, mem', m, size[m])
    ensures OnlyLinked(mem0, mem', n, size0[n])
  {}

  /** How far the block at n is cut: largest pieces are listed up to m, and what is left stands there. */
  ghost predicate Peeled(size0: Layout, size: Layout, held0: set<int>, slot0: map<int, Slot>, slot: map<int, Slot>,
                         mem0: Memory, mem: Memory, n: int, m: int) {
    && CutOff(size0, size, held0, slot0, slot, n, m) && Row(size, slot, n, m) && OnlyLinked(mem0, mem, n, size0[n])
    && (m - n) / 2 + size[m] == size0[n]
  }

  lemma PeeledStart(size: Layout, held: set<int>, slot: map<int, Slot>, mem0: Memory, mem: Memory, n: int)
    requires n in size && n % 2 == 0 && 1 <= size[n] && 0 <= n < |mem0| && |mem| == |mem0|
    requires 0 <= mem[n].succ && forall j :: 0 <= j < |mem| && j != n ==> mem[j] == mem0[j]
    ensures Peeled(size, size, held, slot, slot, mem0, mem, n, n)
  {}

  lemma PeeledApart(size0: Layout, size: Layout, held0: set<int>, slot0: map<int, Slot>, slot: map<int, Slot>,
                    mem0: Memory, mem: Memory, n: int, m: int)
    requires Peeled(size0, size, held0, slot0, slot, mem0, mem, n, m)
    ensures m == n || m !in held0
  {}

  lemma PeeledMore(size0: Layout, size: Layout, size': Layout, held0: set<int>, slot0: map<int, Slot>,
                   slot: map<int, Slot>, slot': map<int, Slot>, mem0: Memory, mem: Memory, mem': Memory, n: int, m: int)
    requires Peeled(size0, size, held0, slot0, slot, mem0, mem, n, m) && Disjoint(size)
    requires m in size && MAX_UNITS < size[m] && m + 2 * MAX_UNITS !in size && m + 2 * MAX_UNITS !in held0
    requires size' == Split(size, m, MAX_UNITS) && slot'.Keys == slot.Keys + {m}
    requires 0 <= m < |mem| && m % 2 == 0 && exists s: State :: 0 <= s.succ && mem' == mem[m := s]
    ensures Peeled(size0, size', held0, slot0, slot', mem0, mem', n, m + 2 * MAX_UNITS)
  {
    RowMore(size, slot, size', slot', n, m);
    CutMore(size0, size, size', held0, slot0, slot, slot', n, m);
    LinkedMore(mem0, mem, mem', size0, size, n, m);
  }

  lemma PeeledLast(size0: Layout, size: Layout, size': Layout, held0: set<int>, slot0: map<int, Slot>,
                   slot: map<int, Slot>, slot': map<int, Slot>, mem0: Memory, mem: Memory, mem': Memory, n: int, m: int)
    requires Peeled(size0, size, held0, slot0, slot, mem0, mem, n, m) && m in size && 0 < size[m] <= MAX_UNITS
    requires OthersKept(size, size', slot, slot', m) && m in slot' && Cut(size', slot', m, size[m])
    requires OnlyLinked(mem, mem', m, size[m])
    ensures n in size0 && OthersKept(size0, size', slot0, slot', n) && Cut(size', slot', n, size0[n])
    ensures OnlyLinked(mem0, mem', n, size0[n])
    ensures 0 <= n < |mem| && 0 <= mem[n].succ ==> n < |mem'| && 0 <= mem'[n].succ
  {
    hide Cut;
    RowKept(size, slot, size', slot', n, m);
    RowCut(size', slot', n, m, size[m]);
    CutLast(size0, size, size', held0, slot0, slot, slot', n, m);
    LinkedLast(mem0, mem, mem', size0, size, n, m);
  }

  lemma ReturnedPending(mem: Memory, mem': Memory, size: Layout, size': Layout, slot: map<int, Slot>,
                        slot': map<int, Slot>, held: set<int>, thread: seq<int>, n: int)
    requires Pending(mem, size, held, thread) && Threaded(mem, thread) && Disjoint(size)
    requires n in held && n in size && n % 2 == 0
    requires OthersKept(size, size', slot, slot', n) && OnlyLinked(mem, mem', n, size[n])
    requires 0 <= n < |mem| && mem'[n].succ != FREE_MARK
    ensures Pending(mem', size', held - {n}, thread) && Threaded(mem', thread)
  {
    ThreadFrame(mem, mem', thread);
    forall a | a in held - {n} ensures PendingAt(mem', size', thread, a) {
      assert PendingAt(mem, size, thread, a);
    }
  }

  /** Cell x lies outside the gap and outside every live block. */
  ghost predicate Leftover(live: Layout, s: Span, x: int) {
    s.base <= x < s.end && !(s.lo <= x < s.hi) && !exists a :: Within(live, a, x)
  }

  // Runs of free cells.

  /** Some of the cells that u units from x on would take is not left over. */
  ghost predicate Broken(live: Layout, s: Span, x: int, u: nat) {
    exists y :: x <= y < x + 2 * u && !Leftover(live, s, y)
  }

  /** Nowhere do u units lie free side by side. */
  ghost predicate NoRun(live: Layout, s: Span, u: nat) {
    forall x :: Broken(live, s, x, u)
  }

  /** The blocks at the heads hold exactly the cells that are left over, and no two of them could be joined further. */
  ghost predicate Glued(merged: Layout, heads: set<int>, live: Layout, s: Span) {
    && Disjoint(merged) && (forall a :: a in heads ==> a in merged && Settled(merged, heads, a))
    && forall x :: Leftover(live, s, x) <==> exists a :: a in heads && Within(merged, a, x)
  }

  /** When all joined blocks are shorter than u units, nowhere do u units lie free side by side. */
  lemma NoRunGlued(merged: Layout, heads: set<int>, live: Layout, s: Span, u: nat)
    requires Glued(merged, heads, live, s) && u <= MAX_UNITS && forall a :: a in heads && a in merged ==> merged[a] < u
    requires u > 0
    ensures NoRun(live, s, u)
  {
    forall x ensures Broken(live, s, x, u) {
      if Leftover(live, s, x) {
        var a :| a in heads && Within(merged, a, x);
        var e := BlockEnd(merged, a);
        assert x <= e < x + 2 * u && !Leftover(live, s, e);
      } else {
        assert x <= x < x + 2 * u && !Leftover(live, s, x);
      }
    }
  }

  /** Every joined block without cell n is listed in the largest pieces, and so is the start of the one with it. */
  ghost predicate Relisted(merged: Layout, heads: set<int>, size: Layout, slot: map<int, Slot>, n: int) {
    forall a :: a in heads && a in merged && merged[a] > 0 ==>
      && (a != n ==> a in slot && a in size && size[a] == FirstPiece(merged[a]))
      && (!Within(merged, a, n) ==> Cut(size, slot, a, merged[a]))
  }

  lemma RelistedKept(merged: Layout, heads: set<int>, size0: Layout, slot0: map<int, Slot>, size: Layout,
                     slot: map<int, Slot>, n: int)
    requires Recut(merged, heads, size0, slot0)
    requires forall a :: a in slot0 && a in size0 && a != n ==> a in slot && a in size && size[a] == size0[a]
    ensures Relisted(merged, heads, size, slot, n)
  {
    hide FirstPiece;
    hide Cut;
    forall a | a in heads && a in merged && merged[a] > 0
      ensures a != n ==> a in slot && a in size && size[a] == FirstPiece(merged[a])
      ensures !Within(merged, a, n) ==> Cut(size, slot, a, merged[a])
    {
      CutFirst(size0, slot0, a, merged[a]);
      if !Within(merged, a, n) {
        CutKept(size0, slot0, size, slot, a, merged[a]);
      }
    }
  }

  /** The first block of the first list from list j on that has one; 0 without any. */
  ghost function FirstTop(stacks: seq<seq<int>>, j: nat): int
    decreases |stacks| - j
  {
    if j >= |stacks| then 0 else if stacks[j] != [] then Top(stacks[j]) else FirstTop(stacks, j + 1)
  }

  lemma {:induction false} FirstTopSkips(stacks: seq<seq<int>>, i: nat, j: nat)
    requires i <= j && forall k :: i <= k < j && k < |stacks| ==> stacks[k] == []
    ensures FirstTop(stacks, i) == FirstTop(stacks, j)
    decreases j - i
  {
    if i < j { FirstTopSkips(stacks, i + 1, j); }
  }

  lemma FirstTopAt(stacks: seq<seq<int>>, i: nat, j: nat)
    requires i <= j && forall k :: i <= k < j && k < |stacks| ==> stacks[k] == []
    ensures j >= |stacks| ==> FirstTop(stacks, i) == 0
    ensures j < |stacks| && stacks[j] != [] ==> FirstTop(stacks, i) == Top(stacks[j])
  {
    FirstTopSkips(stacks, i, j);
  }

  /** The memory as far as it decides where a block is taken. */
  datatype Stock = Stock(live: Layout, span: Span, size: Layout, slot: map<int, Slot>, stacks: seq<seq<int>>,
                         glueCount: int,
                         lo: int, hi: int)

  /** Whether the byte heap had to give the block, or there was none. */
  ghost predicate ListsFailed(b: Stock, c: Stock, n: int) { n == 0 || c.hi != b.hi }

  /** What was too much of the block at n is listed. */
  ghost predicate TailFreed(b: Stock, index: Class, n: int, c: Stock) {
    n in b.size && Units(index) <= b.size[n]
    && Cut(c.size, c.slot, n + 2 * Units(index), b.size[n] - Units(index))
  }

  /** How a block of u units is found once the list of its class and the gap have failed. When the count was 0, all free
      blocks are joined first, so that the lists fail only when nowhere u units lie free side by side; else nothing is
      joined, and the least larger block is taken, or the top of the byte heap. */
  ghost predicate Sought(b: Stock, index: Class, n: int, c: Stock) {
    && c.glueCount == (if b.glueCount == 0 then 255 else b.glueCount) - (if ListsFailed(b, c, n) then 1 else 0)
    && (if ListsFailed(b, c, n) then
          var top := b.hi - Units(index) * UNIT_SIZE;
          if top > b.lo then n == top / UNIT_SIZE * 2 && c.hi == top else n == 0 && c.hi == b.hi
        else c.hi == b.hi)
    && (if b.glueCount == 0 then
          && (ListsFailed(b, c, n) ==> NoRun(b.live, b.span, Units(index)))
          && exists merged, heads :: Glued(merged, heads, b.live, b.span) && Relisted(merged, heads, c.size, c.slot, n)
        else
          && (ListsFailed(b, c, n) <==> FirstTop(b.stacks, index + 1) == 0)
          && (!ListsFailed(b, c, n) ==> n == FirstTop(b.stacks, index + 1) && TailFreed(b, index, n, c))
          && FreeKept(b, c, n))
  }

  /** Where a block of a class is taken: from its list, else from the bottom of the gap, else as Sought says. */
  ghost predicate Chosen(b: Stock, i: Class, n: int, c: Stock) {
    if i < |b.stacks| && b.stacks[i] != [] then
      n == Top(b.stacks[i]) && c.span == b.span && c.glueCount == b.glueCount && FreeKept(b, c, n)
    else if b.span.lo + Units(i) * 2 <= b.span.hi then
      && n == b.span.lo && c.span == b.span.(lo := b.span.lo + Units(i) * 2) && c.glueCount == b.glueCount
      && c.slot == b.slot
    else Sought(b, i, n, c)
  }

  /** Where a context's unit is taken: from the top of the gap, else from its list, else as Sought says. */
  ghost predicate ChosenUnit(b: Stock, n: int, c: Stock) {
    if b.span.lo < b.span.hi then
      n == b.span.hi - 2 && c.span == b.span.(hi := b.span.hi - 2) && c.glueCount == b.glueCount && c.slot == b.slot
    else if 1 < |b.stacks| && b.stacks[1] != [] then
      n == Top(b.stacks[1]) && c.span == b.span && c.glueCount == b.glueCount && FreeKept(b, c, n)
    else Sought(b, 1, n, c)
  }

  /** Nothing but the blocks handed out is different. */
  ghost predicate SameStock(c: Stock, c': Stock) {
    c' == c.(live := c'.live)
  }

  lemma ChosenSame(b: Stock, i: Class, n: int, c: Stock, c': Stock)
    requires SameStock(c, c')
    ensures Chosen(b, i, n, c) ==> Chosen(b, i, n, c')
    ensures ChosenUnit(b, n, c) ==> ChosenUnit(b, n, c')
  {
    hide Glued;
    hide Relisted;
    hide NoRun;
    hide FirstTop;
  }

  /** Nothing but the lists is different: the block at p heads the list of class i. */
  ghost predicate Freed(b: Stock, p: int, i: nat, c: Stock) {
    && i < |b.stacks| && c.stacks == b.stacks[i := b.stacks[i] + [p]]
    && c.span == b.span && c.glueCount == b.glueCount && c.hi == b.hi
  }

  /** A block was chosen at q, and then the one at p was freed. */
  ghost predicate Exchanged(b: Stock, p: int, i: nat, k: Class, q: int, mid: Stock, c: Stock) {
    Chosen(b, k, q, mid) && Freed(mid, p, i, c)
  }

  /** Where the list of a context that had n states, several of them in the block at p, is with one more. */
  ghost predicate Grown(b: Stock, p: int, n: nat, q: int, c: Stock)
    requires 1 <= n <= 255
  {
    C.ListFits(n + 1);
    var i, k := C.ListClass(n), C.ListClass(n + 1);
    if n == 1 then Chosen(b, k, q, c)
    else if i == k then q == p && SameStock(b, c)
    else exists mid :: Exchanged(b, p, i, k, q, mid, c)
  }

  /** What a context of n states is to have one more: its list is at q, or no block was found. */
  ghost predicate Expanded(b: Stock, p: int, n: nat, ok: bool, q: int, c: Stock) {
    1 <= n <= 255
    && if ok then Grown(b, p, n, q, c)
       else
         C.ListFits(n + 1);
         Chosen(b, C.ListClass(n + 1), 0, c)
  }

  lemma ExpandedInline(b: Stock, p: int, ok: bool, q: int, c: Stock)
    requires Chosen(b, 1, if ok then q else 0, c)
    ensures Expanded(b, p, 1, ok, q, c)
  {
    hide Chosen;
    C.ListClassStep(1);
  }

  lemma ExpandedStays(b: Stock, p: int, n: nat, c: Stock)
    requires 2 <= n <= 255 && C.ListClass(n) == C.ListClass(n + 1) && SameStock(b, c)
    ensures Expanded(b, p, n, true, p, c)
  {
    hide Chosen;
    hide C.ListClass;
  }

  lemma ExpandedMoved(b: Stock, p: int, n: nat, i: nat, k: Class, ok: bool, q: int, mid: Stock, c: Stock)
    requires 2 <= n <= 255 && i == C.ListClass(n) && k == C.ListClass(n + 1) && i != k
    requires Chosen(b, k, if ok then q else 0, mid) && if ok then Freed(mid, p, i, c) else mid == c
    ensures Expanded(b, p, n, ok, q, c)
  {
    hide Chosen;
    hide C.ListClass;
    assert ok ==> Exchanged(b, p, i, k, q, mid, c);
  }

  /** A list of class i in the block at p goes to the first listed block of the lesser class k, and its block heads its
      list; without such a block what is too much is cut from its end. */
  ghost predicate Shorter(stacks0: seq<seq<int>>, slot0: map<int, Slot>, size0: Layout, p: int, i: nat, k: nat, q: int,
                          stacks: seq<seq<int>>, slot: map<int, Slot>, size: Layout)
  {
    && i < |stacks0| && k < |stacks0|
    && if stacks0[k] != [] then
         q == Top(stacks0[k]) && stacks == stacks0[k := stacks0[k][..|stacks0[k]| - 1]][i := stacks0[i] + [p]]
       else
         var rest := p + 2 * Units(k);
         && q == p && Units(k) < Units(i) && Cut(size, slot, rest, Units(i) - Units(k))
         && forall a :: a in slot0 && a in size0 ==> a in slot && a in size && size[a] == size0[a]
  }

  lemma ShorterMoved(stacks0: seq<seq<int>>, slot0: map<int, Slot>, size0: Layout, p: int, i: nat, k: nat, q: int,
                     stacks1: seq<seq<int>>, stacks: seq<seq<int>>, slot: map<int, Slot>, size: Layout)
    requires i < |stacks0| && k < |stacks0| && i != k && stacks0[k] != [] && q == Top(stacks0[k])
    requires stacks1 == stacks0[k := stacks0[k][..|stacks0[k]| - 1]] && stacks == stacks1[i := stacks1[i] + [p]]
    ensures Shorter(stacks0, slot0, size0, p, i, k, q, stacks, slot, size)
  {}

  lemma ShorterCut(stacks0: seq<seq<int>>, slot0: map<int, Slot>, size0: Layout, p: int, i: nat, k: nat,
                   stacks: seq<seq<int>>, slot: map<int, Slot>, size: Layout)
    requires i < |stacks0| && k < |stacks0| && stacks0[k] == [] && Units(k) < Units(i)
    requires Cut(size, slot, p + 2 * Units(k), Units(i) - Units(k))
    requires forall a :: a in slot0 && a in size0 ==> a in slot && a in size && size[a] == size0[a]
    ensures Shorter(stacks0, slot0, size0, p, i, k, p, stacks, slot, size)
  {}

  /** Where the list of a context that had n states in the block at p is when m are left, and what becomes of the block;
      a single state is with its context. */
  ghost predicate Shrunk(b: Stock, p: int, n: nat, m: nat, q: int, c: Stock) {
    var i, k := C.ListClass(n), C.ListClass(m);
    if m == 1 then Freed(b, p, i, c)
    else if i == k then q == p && SameStock(b, c)
    else
      Shorter(b.stacks, b.slot, b.size, p, i, k, q, c.stacks, c.slot, c.size)
      && c.span == b.span && c.glueCount == b.glueCount && c.hi == b.hi
  }

  /** The block is not found only when nothing is. */
  lemma SoughtNone(b: Stock, index: Class, c: Stock)
    requires Sought(b, index, 0, c) && b.glueCount == 0
    ensures NoRun(b.live, b.span, Units(index))
  {}

  /** The free blocks but the one at n are as they were. */
  ghost predicate FreeKept(b: Stock, c: Stock, n: int) {
    forall a :: a in b.slot && a in b.size && a != n ==> a in c.slot && a in c.size && c.size[a] == b.size[a]
  }

  lemma KeptFree(b: Stock, c: Stock, n: int)
    requires forall a :: a in b.slot && a in b.size && a != n ==> a in c.slot && a in c.size && c.size[a] == b.size[a]
    ensures FreeKept(b, c, n)
  {}

  /** A list gave the block. */
  lemma SoughtListed(b: Stock, index: Class, n: int, c: Stock, merged: Layout, heads: set<int>)
    requires n != 0 && c.hi == b.hi && c.glueCount == if b.glueCount == 0 then 255 else b.glueCount
    requires if b.glueCount == 0 then Glued(merged, heads, b.live, b.span) && Relisted(merged, heads, c.size, c.slot, n)
      else n == FirstTop(b.stacks, index + 1) && TailFreed(b, index, n, c) && FreeKept(b, c, n)
    ensures Sought(b, index, n, c)
  {
    hide Glued;
    hide Relisted;
    hide FirstTop;
  }

  /** The byte heap gave it, or nothing did. */
  lemma SoughtLast(b: Stock, index: Class, n: int, c: Stock, merged: Layout, heads: set<int>)
    requires c.glueCount == (if b.glueCount == 0 then 255 else b.glueCount) - 1
    requires var top := b.hi - Units(index) * UNIT_SIZE;
      if top > b.lo then n == top / UNIT_SIZE * 2 && c.hi == top else n == 0 && c.hi == b.hi
    requires if b.glueCount == 0 then
        && Glued(merged, heads, b.live, b.span) && Relisted(merged, heads, c.size, c.slot, n)
        && forall a :: a in heads && a in merged ==> merged[a] < Units(index)
      else FirstTop(b.stacks, index + 1) == 0 && FreeKept(b, c, n)
    ensures Sought(b, index, n, c)
  {
    hide Glued;
    hide Relisted;
    hide FirstTop;
    hide NoRun;
    assert 0 < Units(index) <= MAX_UNITS;
    if b.glueCount == 0 {
      NoRunGlued(merged, heads, b.live, b.span, Units(index));
    }
  }

  lemma ReturnedKept(mem: Memory, mem': Memory, size: Layout, size': Layout, slot: map<int, Slot>,
                     slot': map<int, Slot>, held: set<int>, n: int, s: Span)
    requires n in held && n in size && Disjoint(size) && InBounds(size, s)
    requires OthersKept(size, size', slot, slot', n) && OnlyLinked(mem, mem', n, size[n])
    ensures LiveOf(size', slot', held - {n}) == LiveOf(size, slot, held)
    ensures Unchanged(mem, mem', LiveOf(size, slot, held))
    ensures forall j :: 0 <= j < s.base && j < |mem| ==> mem'[j] == mem[j]
  {
    LiveKept(size, size', slot, slot', held, n);
    WriteInside(mem, mem', size, n, LiveOf(size, slot, held));
  }

  /** The byte heap is padded at its start so that it ends where a unit does. */
  lemma HeapBounds(maxBytes: nat)
    ensures var lo := UNIT_SIZE + (UNIT_SIZE - maxBytes % UNIT_SIZE);
      var hi := UNIT_SIZE + (maxBytes / UNIT_SIZE + 1) * UNIT_SIZE;
      && 13 <= lo <= 24 <= hi && hi % 12 == 0 && hi - lo == maxBytes
      && hi / 6 == hi / UNIT_SIZE * 2 == 2 + (maxBytes / UNIT_SIZE + 1) * 2
  {}

  lemma UnitsBelow(hi: int, units: int, u: nat)
    requires hi == 12 * units && 0 <= u
    ensures var top := hi - 12 * u;
      top % 12 == 0 && top / 12 == units - u && top / 6 == 2 * (units - u) == hi / 6 - 2 * u
  {
    DivModUnique(hi - 12 * u, units - u, 12, 0);
    DivModUnique(hi - 12 * u, 2 * (units - u), 6, 0);
    DivModUnique(hi, 2 * units, 6, 0);
  }

  lemma SizesInRange(maxMB: nat)
    requires 1 <= maxMB <= 256
    ensures var bytes := maxMB * 0x10_0000; var heap2Units := bytes / 8 / UNIT_SIZE * 7;
      var maxBytes := bytes - heap2Units * UNIT_SIZE; var n := (1 + (maxBytes / UNIT_SIZE + 1) + heap2Units) * 2;
      && 1 <= maxBytes && n % 2 == 0 && n < TWO_31 && 2 + (maxBytes / UNIT_SIZE + 1) * 2 + 2 * MAX_UNITS + 2 <= n
  {
    var bytes := maxMB * 0x10_0000;
    var eighth := bytes / 8;
    var k := eighth / UNIT_SIZE;
    var maxBytes := bytes - k * 7 * UNIT_SIZE;
    var q := maxBytes / UNIT_SIZE;
    SevenEighths(bytes, eighth, k, maxBytes, q, (1 + (q + 1) + k * 7) * 2);
  }

  lemma SevenEighths(bytes: int, eighth: int, k: int, maxBytes: int, q: int, n: int)
    requires 0x10_0000 <= bytes <= 0x1000_0000
    requires 8 * eighth <= bytes < 8 * eighth + 8 && 12 * k <= eighth < 12 * k + 12
    requires maxBytes == bytes - k * 7 * UNIT_SIZE && 12 * q <= maxBytes < 12 * q + 12
    requires n == (1 + (q + 1) + k * 7) * 2
    ensures 1 <= maxBytes && n % 2 == 0 && n < TWO_31 && 2 + (q + 1) * 2 + 2 * MAX_UNITS + 2 <= n
  {
    assert 84 * k <= 7 * eighth && 56 * eighth <= 7 * bytes;
    assert 8 * maxBytes >= bytes && 96 * k + 104 >= bytes;
    assert k >= 200 && k <= bytes / 96 && q <= bytes / 12;
    DivModUnique(n, q + 2 + 7 * k, 2, 0);
  }

  class SubAllocator {
    var glueCount: int
    const heap1MaxBytes: nat
    var heap1Lo: int
    var heap1Hi: int
    var heap2Lo: int
    var heap2Hi: int
    const freeList: array<int>
    const states: array<State>

    // The blocks between heap1 and the end of memory, whoever holds them.
    ghost var size: Layout
    // The free lists, and where each free block stands in them.
    ghost var stacks: seq<seq<int>>
    ghost var slot: map<int, Slot>
    // Blocks in transit inside an operation: neither free nor handed out.
    ghost var held: set<int>

    // The contexts, and the context each live block belongs to.
    ghost var contexts: set<int>
    ghost var owner: map<int, int>

    /** Memory for maxMB megabytes: one unit for the nil pointer, the byte heap, and seven eighths for blocks. */
    constructor (maxMB: nat)
      requires 1 <= maxMB <= 256
      ensures Sound() && contexts == {} && heap1Lo < heap1Hi
      ensures Floor() + 2 * MAX_UNITS + 2 <= states.Length
    {
      var bytes := maxMB * 0x10_0000;
      var heap2Units := bytes / 8 / UNIT_SIZE * 7;
      var maxBytes := bytes - heap2Units * UNIT_SIZE;
      var heap1Units := maxBytes / UNIT_SIZE + 1;
      var n := (1 + heap1Units + heap2Units) * 2;
      HeapBounds(maxBytes);
      heap1MaxBytes := maxBytes;
      states := new State[n](_ => ZERO);
      freeList := new int[CLASS_COUNT](_ => 0);
      glueCount := 0;
      heap1Lo := UNIT_SIZE + (UNIT_SIZE - maxBytes % UNIT_SIZE);
      heap1Hi := UNIT_SIZE + heap1Units * UNIT_SIZE;
      heap2Lo := (UNIT_SIZE + heap1Units * UNIT_SIZE) / UNIT_SIZE * 2;
      heap2Hi := n;
      size, slot, held := map[], map[], {};
      stacks := EMPTY_STACKS;
      contexts, owner := {}, map[];
      new;
      SizesInRange(maxMB);
      EmptyIsSound();
      hide Valid;
    }

    /** With every list empty and the gap everything above the byte heap, the allocator is sound. */
    lemma EmptyIsSound()
      requires heap1Lo == UNIT_SIZE + (UNIT_SIZE - heap1MaxBytes % UNIT_SIZE)
        && heap1Hi == UNIT_SIZE + (heap1MaxBytes / UNIT_SIZE + 1) * UNIT_SIZE
      requires heap2Lo == heap1Hi / UNIT_SIZE * 2 && heap2Hi == states.Length
      requires Floor() <= states.Length < TWO_31 && states.Length % 2 == 0
      requires size == map[] && slot == map[] && held == {} && stacks == EMPTY_STACKS && contexts == {}
      requires freeList.Length == CLASS_COUNT && forall i :: 0 <= i < CLASS_COUNT ==> freeList[i] == 0
      requires forall j :: Floor() <= j < states.Length ==> states[j].succ != FREE_MARK
      ensures Sound() && heap1Hi - heap1Lo == heap1MaxBytes && heap1Hi == 6 * Floor() && heap2Lo == Floor()
        && Live() == map[]
    {
      hide Tiled;
      hide Stacked;
      hide Headed;
      HeapBounds(heap1MaxBytes);
      EmptyTiled(Bytes());
      EmptyStacked(states[..], freeList[..]);
    }

    ghost function Bytes(): Span
      reads `heap1Hi, `heap2Lo, `heap2Hi
    {
      Span(heap1Hi / 6, heap2Lo, heap2Hi, states.Length)
    }

    /** Where heap2 begins after a restart. */
    ghost function Floor(): int {
      2 + (heap1MaxBytes / UNIT_SIZE + 1) * 2
    }

    /** The blocks handed out, with their sizes in units. */
    ghost function Live(): Layout
      reads `size, `slot, `held
    {
      LiveOf(size, slot, held)
    }

    /** No cell that can follow a free block looks like a free block. */
    ghost predicate Unmarked()
      reads `size, `held, states
    {
      && (forall j :: Floor() <= j < states.Length && j !in held ==> states[j].succ != FREE_MARK)
      && forall a :: a in size && a !in held && 0 <= a < states.Length ==> states[a].succ != FREE_MARK
    }

    ghost predicate Valid()
      reads `heap1Lo, `heap1Hi, `heap2Lo, `heap2Hi, `size, `stacks, `slot, `held, freeList, states
    {
      Consistent() && Headed(freeList[..], stacks)
    }

    /** Everything except the list heads, which glueing rewrites last. */
    ghost predicate Consistent()
      reads `heap1Lo, `heap1Hi, `heap2Lo, `heap2Hi, `size, `stacks, `slot, `held, states
    {
      && states.Length < TWO_31
      && heap1Hi % 12 == 0 && heap1Lo <= heap1Hi && heap1Hi / 6 <= Floor() <= heap2Lo && 13 <= heap1Lo
      && Tiled(size, Bytes())
      && Stacked(states[..], stacks, slot, size)
      && (forall a :: a in held ==> a in size && a !in slot)
      && Unmarked()
    }

    lemma BlockInMemory(a: int)
      requires Valid() && (a in size || a in held)
      ensures a in size && a % 2 == 0 && 0 < a && 1 <= size[a] && a + 2 * size[a] <= states.Length
    {}

    /** Take the top block of list i, or 0 if the list is empty. */
    method RemoveFreeBlock(i: Class) returns (n: int)
      requires Valid()
      modifies `stacks, `slot, `held, freeList, states
      ensures Valid()
      ensures 0 <= n == old(Top(stacks[i]))
      ensures n == 0 <==> old(stacks[i]) == []
      ensures n == 0 ==>
        stacks == old(stacks) && slot == old(slot) && held == old(held) && states[..] == old(states[..])
      ensures n != 0 ==>
        && n < states.Length && n in size && size[n] == Units(i) && n in old(slot)
        && stacks == old(stacks[i := stacks[i][..|stacks[i]| - 1]]) && slot == old(slot) - {n}
        && held == old(held) + {n} && states[..] == old(states[..])[n := ZERO]
      ensures Live() == old(Live()) && Unchanged(old(states[..]), states[..], Live())
      ensures forall j :: 0 <= j < heap1Hi / 6 ==> states[j] == old(states[j])
    {
      hide Stacked;
      hide Unchanged;
      hide Tiled;
      hide Headed;
      ListHead(i);
      n := freeList[i];
      if n == 0 {
        EmptyList(i);
        return;
      }
      UnlistedBlock(i);
      ghost var mem, live := states[..], Live();
      freeList[i] := states[n].succ;
      states[n] := ZERO;
      stacks := stacks[i := stacks[i][..|stacks[i]| - 1]];
      slot := slot - {n};
      held := held + {n};
      assert Live() == live by { assert forall a :: a in Live() <==> a in live; }
      assert states[..] == mem[n := ZERO];
    }

    /** A list is empty exactly when its head is 0. */
    lemma EmptyList(i: nat)
      requires Valid() && i < CLASS_COUNT
      ensures freeList.Length == CLASS_COUNT && |stacks| == CLASS_COUNT && (freeList[i] == 0 <==> stacks[i] == [])
      ensures Unchanged(states[..], states[..], Live())
    {
      TopInMemory(states[..], stacks, slot, size, i);
      if stacks[i] != [] {
        PopStacked(states[..], stacks, slot, size, i, ZERO);
      }
    }

    /** Holding the first block of a list keeps everything in order. */
    lemma UnlistedBlock(i: nat)
      requires Valid() && i < CLASS_COUNT && freeList.Length == CLASS_COUNT && freeList[i] != 0
      ensures |stacks| == CLASS_COUNT && stacks[i] != [] && 0 < freeList[i] == Top(stacks[i]) < states.Length
      ensures var n, below := freeList[i], stacks[i][..|stacks[i]| - 1];
        var mem' := states[..][n := ZERO];
        && n in size && size[n] == Units(i) && n in slot && Floor() >= heap1Hi / 6 && n >= heap1Hi / 6
        && Stacked(mem', stacks[i := below], slot - {n}, size)
        && Headed(freeList[..][i := states[n].succ], stacks[i := below])
        && (forall j :: Floor() <= j < |mem'| && j !in held + {n} ==> mem'[j].succ != FREE_MARK)
        && (forall a :: a in size && a !in held + {n} && 0 <= a < |mem'| ==> mem'[a].succ != FREE_MARK)
        && Unchanged(states[..], mem', Live())
    {
      TopInMemory(states[..], stacks, slot, size, i);
      EmptyList(i);
      PopStacked(states[..], stacks, slot, size, i, ZERO);
    }

    /** Listing the held block n keeps everything in order. */
    lemma ListedBlock(n: int, i: nat, s: State)
      requires Valid() && n in held && i < CLASS_COUNT && size[n] == Units(i) && s.succ == freeList[i]
      ensures 0 <= n < states.Length
      ensures var mem' := states[..][n := s]; var stacks' := stacks[i := stacks[i] + [n]];
        && Stacked(mem', stacks', slot[n := Slot(i, |stacks[i]|)], size)
        && Headed(freeList[..][i := n], stacks')
        && (forall j :: Floor() <= j < |mem'| && j !in held - {n} ==> mem'[j].succ != FREE_MARK)
        && (forall a :: a in size && a !in held - {n} && 0 <= a < |mem'| ==> mem'[a].succ != FREE_MARK)
        && Unchanged(states[..], mem', Live())
    {
      TopInMemory(states[..], stacks, slot, size, i);
      PushStacked(states[..], stacks, slot, size, n, i, s);
      WriteInside(states[..], states[..][n := s], size, n, Live());
    }

    lemma ListHead(i: nat)
      requires Valid() && i < CLASS_COUNT
      ensures freeList.Length == CLASS_COUNT && 0 <= freeList[i] < states.Length < TWO_31
      ensures freeList[i] == Top(stacks[i]) && |stacks| == CLASS_COUNT
    {
      TopInMemory(states[..], stacks, slot, size, i);
    }

    /** Put the block at n on top of list i. */
    method AddFreeBlock(n: int, i: Class)
      requires Valid() && n in held && size[n] == Units(i)
      modifies `stacks, `slot, `held, freeList, states
      ensures Valid()
      ensures stacks == old(stacks[i := stacks[i] + [n]]) && slot == old(slot[n := Slot(i, |stacks[i]|)])
      ensures held == old(held) - {n}
      ensures 0 <= old(freeList[i]) < TWO_31 && Live() == old(Live())
      ensures states[..] == old(states[..])[n := State(old(states[n]).sym, old(states[n]).freq, old(freeList[i]))]
      ensures Unchanged(old(states[..]), states[..], Live())
    {
      hide Stacked;
      hide Unchanged;
      hide Tiled;
      hide Headed;
      ListHead(i);
      HeldFacts(n);
      var s := State(states[n].sym, states[n].freq, freeList[i]);
      ListedBlock(n, i, s);
      ghost var mem, live := states[..], Live();
      states[n] := s;
      freeList[i] := n;
      stacks := stacks[i := stacks[i] + [n]];
      slot := slot[n := Slot(i, |stacks[i]| - 1)];
      held := held - {n};
      assert Live() == live by { assert forall a :: a in Live() <==> a in live; }
      assert states[..] == mem[n := s];
    }

    /** Cut the held block at n after k units and hold both parts. */
    ghost method SplitHeld(n: int, k: nat)
      requires Valid() && n in held && 0 < k < size[n]
      modifies `size, `held
      ensures Valid()
      ensures n + 2 * k !in old(size) && n + 2 * k !in old(held)
      ensures size == Split(old(size), n, k) && held == old(held) + {n + 2 * k}
      ensures n in held && n + 2 * k in held && size[n] == k && size[n + 2 * k] == old(size)[n] - k
    {
      SplitTiled(size, Bytes(), n, k);
      forall a | a in slot ensures a in size { SlotIsBlock(states[..], stacks, slot, size, a); }
      StackedFrame(states[..], states[..], stacks, slot, size, Split(size, n, k));
      size := Split(size, n, k);
      held := held + {n + 2 * k};
    }

    /** Free the u units of the held block at n, as one block or as two. */
    method FreeUnits(n: int, u: int)
      requires Valid() && n in held && size[n] == u && 1 <= u <= MAX_UNITS
      modifies `size, `stacks, `slot, `held, freeList, states
      ensures Valid()
      ensures held == old(held) - {n}
      ensures OthersKept(old(size), size, old(slot), slot, n)
      ensures n in slot && Cut(size, slot, n, u)
      ensures Live() == old(Live())
      ensures OnlyLinked(old(states[..]), states[..], n, u)
    {
      hide ClassOf;
      hide Units;
      hide Tiled;
      hide Headed;
      hide Consistent;
      hide Unchanged;
      hide Valid;
      BlockInMemory(n);
      ClassInRange(u);
      var i := ClassOf(u);
      if u == Units(i) {
        AddFreeBlock(n, i);
        CutOne(size, slot, n, u);
      } else {
        SplitIsExact(u);
        i := i - 1;
        var k := Units(i);
        SplitHeld(n, k);
        AddFreeBlock(n, i);
        AddFreeBlock(n + 2 * k, ClassOf(u - k));
        CutTwo(size, slot, n, u, k);
      }
      LiveKept(old(size), size, old(slot), slot, old(held), n);
    }

    lemma LayoutFacts()
      requires Valid()
      ensures Disjoint(size) && InBounds(size, Bytes()) && Disjoint(Live())
    {}

    lemma BaseInMemory()
      requires Valid()
      ensures 0 <= heap1Lo <= heap1Hi && 0 <= heap1Hi / 6 <= states.Length
      ensures Floor() <= states.Length < TWO_31 && states.Length % 2 == 0
    {}

    lemma BlockFacts(a: int)
      requires Consistent() && (a in size || a in held || a in slot)
      ensures a in size && a % 2 == 0 && 0 < a && 1 <= size[a] && a + 2 * size[a] <= states.Length
      ensures a + 1 !in size
    {
      if a in slot { SlotIsBlock(states[..], stacks, slot, size, a); }
      NothingInside(size, a, a + 1);
    }

    lemma TopIsFree(i: nat)
      requires Consistent() && i < CLASS_COUNT && stacks[i] != []
      ensures var n := Top(stacks[i]);
        && n in slot && n !in held && n in size && size[n] == Units(i) && 0 < n < states.Length
        && states[n].succ == Top(stacks[i][..|stacks[i]| - 1])
    {
      TopInMemory(states[..], stacks, slot, size, i);
      PopStacked(states[..], stacks, slot, size, i, ZERO);
    }

    lemma ConsistentAfterThread(n: int, i: nat, mem': Memory)
      requires Consistent() && i < CLASS_COUNT && stacks[i] != [] && n == Top(stacks[i]) && |mem'| == |states[..]|
      requires forall j :: 0 <= j < |mem'| && j != n && j != n + 1 ==> mem'[j] == states[j]
      requires 0 <= n && n + 1 < |mem'| && mem'[n + 1].succ >= 0
      ensures Stacked(mem', stacks[i := stacks[i][..|stacks[i]| - 1]], slot - {n}, size)
      ensures forall j :: Floor() <= j < states.Length && j !in held + {n} ==> mem'[j].succ != FREE_MARK
      ensures forall a :: a in size && a !in held + {n} && 0 <= a < states.Length ==> mem'[a].succ != FREE_MARK
    {
      TopInMemory(states[..], stacks, slot, size, i);
      BlockFacts(n);
      forall a | a in slot ensures a in size { SlotIsBlock(states[..], stacks, slot, size, a); }
      var mem1 := states[..][n + 1 := mem'[n + 1]];
      StackedFrame(states[..], mem1, stacks, slot, size, size);
      PopStacked(mem1, stacks, slot, size, i, mem'[n]);
      assert mem' == mem1[n := mem'[n]];
    }

    /** Move the top block n of list i to the thread that ends at freeIndex, and mark it. */
    method ThreadTop(n: int, i: nat, freeIndex: int, ghost thread: seq<int>) returns (next: int)
      requires Consistent() && i < CLASS_COUNT && n == Top(stacks[i]) && stacks[i] != []
      requires Threaded(states[..], thread) && freeIndex == Top(thread)
      requires Pending(states[..], size, held, thread) && forall a :: a in thread ==> a in held
      modifies `stacks, `slot, `held, states
      ensures Consistent()
      ensures n in old(slot) && n in size && slot == old(slot) - {n} && held == old(held) + {n}
      ensures stacks == old(stacks[i := stacks[i][..|stacks[i]| - 1]]) && next == Top(stacks[i])
      ensures Threaded(states[..], thread + [n])
      ensures Pending(states[..], size, held, thread + [n])
      ensures forall j :: 0 <= j < states.Length && !(n <= j < BlockEnd(size, n)) ==> states[j] == old(states[j])
    {
      ghost var mem := states[..];
      TopIsFree(i);
      BlockFacts(n);
      ThreadTopInMemory(mem, thread);
      var link := State(states[n + 1].sym, states[n + 1].freq, freeIndex);
      var mark := State(0, 0, FREE_MARK).WithU16(Units(i));
      ConsistentAfterThread(n, i, mem[n + 1 := link][n := mark]);
      states[n + 1] := link;
      next := states[n].succ;
      states[n] := mark;
      assert states[..] == mem[n + 1 := link][n := mark];
      ThreadExtended(mem, states[..], thread, n);
      PendingExtended(mem, states[..], size, held, thread, n);
      stacks := stacks[i := stacks[i][..|stacks[i]| - 1]];
      slot := slot - {n};
      held := held + {n};
    }

    /** Move all of list i to the thread. */
    method ThreadList(i: nat, from: int, ghost begun: seq<int>) returns (freeIndex: int, ghost thread: seq<int>)
      requires Consistent() && i < CLASS_COUNT && Headed(freeList[..], stacks)
      requires Threaded(states[..], begun) && from == Top(begun)
      requires Pending(states[..], size, held, begun) && forall a :: a in begun ==> a in held
      modifies `stacks, `slot, `held, freeList, states
      ensures Consistent() && Headed(freeList[..], stacks)
      ensures stacks == old(stacks)[i := []]
      ensures Threaded(states[..], thread) && freeIndex == Top(thread)
      ensures Pending(states[..], size, held, thread) && forall a :: a in thread ==> a in held
      ensures Live() == old(Live()) && Unchanged(old(states[..]), states[..], Live())
      ensures forall j :: 0 <= j < heap1Hi / 6 ==> states[j] == old(states[j])
    {
      hide Threaded;
      hide Pending;
      freeIndex := from;
      thread := begun;
      ghost var live, mem, lists, heads := Live(), states[..], stacks, freeList[..];
      var n := freeList[i];
      while n != 0
        invariant Consistent() && n == Top(stacks[i]) && stacks == lists[i := stacks[i]]
        invariant freeList[..] == heads
        invariant Threaded(states[..], thread) && freeIndex == Top(thread)
        invariant Pending(states[..], size, held, thread) && forall a :: a in thread ==> a in held
        invariant Live() == live && Unchanged(mem, states[..], live)
        invariant forall j :: 0 <= j < heap1Hi / 6 ==> states[j] == mem[j]
        decreases |stacks[i]|
      {
        ghost var now := states[..];
        TopIsFree(i);
        var next := ThreadTop(n, i, freeIndex, thread);
        assert Live() == live;
        WriteInside(now, states[..], size, n, live);
        UnchangedTrans(mem, now, states[..], live);
        thread := thread + [n];
        freeIndex := n;
        n := next;
      }
      if stacks[i] != [] { TopIsFree(i); }
      freeList[i] := 0;
    }

    /** First loop of glueing: empty every list onto one thread of marked blocks. */
    method CollectFree() returns (freeIndex: int, ghost thread: seq<int>)
      requires Valid() && held == {}
      modifies `stacks, `slot, `held, freeList, states
      ensures Valid() && slot == map[]
      ensures Threaded(states[..], thread) && freeIndex == Top(thread)
      ensures Pending(states[..], size, held, thread)
      ensures Live() == old(Live()) && Unchanged(old(states[..]), states[..], Live())
      ensures forall j :: 0 <= j < heap1Hi / 6 ==> states[j] == old(states[j])
    {
      freeIndex := 0;
      thread := [];
      ghost var live, mem := Live(), states[..];
      assert Pending(mem, size, held, thread) && Threaded(mem, thread);
      hide Threaded;
      hide Pending;
      for i := 0 to CLASS_COUNT
        invariant Consistent() && Headed(freeList[..], stacks)
        invariant forall k :: 0 <= k < i ==> stacks[k] == []
        invariant Threaded(states[..], thread) && freeIndex == Top(thread)
        invariant Pending(states[..], size, held, thread) && forall a :: a in thread ==> a in held
        invariant Live() == live && Unchanged(mem, states[..], live)
        invariant forall j :: 0 <= j < heap1Hi / 6 ==> states[j] == mem[j]
      {
        ghost var now := states[..];
        freeIndex, thread := ThreadList(i, freeIndex, thread);
        UnchangedTrans(mem, now, states[..], live);
      }
      assert forall a :: a !in slot;
    }

    /** The cell at the end of a block says whether a marked block follows. */
    lemma FollowerIsHeld(i: int, thread: seq<int>)
      requires Valid() && slot == map[] && i in held && Pending(states[..], size, held, thread)
      ensures i in size && i % 2 == 0 && heap1Hi / 6 <= i && 0 < i && 1 <= size[i] && BlockEnd(size, i) <= states.Length
      ensures states[i].succ == FREE_MARK && states[i].U16() == size[i]
      ensures var e := BlockEnd(size, i);
        (e < states.Length && states[e].succ == FREE_MARK) <==> e in held
      ensures var e := BlockEnd(size, i);
        e in held ==> e in size && states[e].U16() == size[e] && e % 2 == 0
    {
      var e := BlockEnd(size, i);
      assert PendingAt(states[..], size, thread, i);
      assert FollowedByHead(size, Bytes(), i);
      if e in held { assert PendingAt(states[..], size, thread, e); }
    }

    lemma AbsorbedPending(i: int, e: int, thread: seq<int>, mem': Memory)
      requires Consistent() && Pending(states[..], size, held, thread) && Threaded(states[..], thread)
      requires i in held && i in size && e == BlockEnd(size, i) && e in held && e in size
      requires |mem'| == states.Length && forall j :: 0 <= j < |mem'| && j != i && j != e ==> mem'[j] == states[j]
      requires 0 < i < e < |mem'| && i % 2 == 0 && e % 2 == 0
      requires mem'[i].succ == FREE_MARK && mem'[i].U16() == size[i] + size[e] && mem'[e].succ == 0
      ensures Pending(mem', Merge(size, i), held - {e}, thread)
      ensures Threaded(mem', thread)
    {
      ThreadFrame(states[..], mem', thread);
      forall a | a in held - {e} ensures PendingAt(mem', Merge(size, i), thread, a) {
        assert PendingAt(states[..], size, thread, a);
      }
    }

    lemma AbsorbedConsistent(i: int, e: int, mem': Memory)
      requires Consistent() && slot == map[]
      requires i in held && i in size && e == BlockEnd(size, i) && e in held && e in size
      requires |mem'| == states.Length && forall j :: 0 <= j < |mem'| && j != i && j != e ==> mem'[j] == states[j]
      requires 0 <= e < |mem'| && mem'[e].succ == 0
      ensures Tiled(Merge(size, i), Bytes())
      ensures Stacked(mem', stacks, slot, Merge(size, i))
      ensures forall j :: Floor() <= j < states.Length && j !in held - {e} ==> mem'[j].succ != FREE_MARK
      ensures forall a :: a in Merge(size, i) && a !in held - {e} && 0 <= a < states.Length ==>
        mem'[a].succ != FREE_MARK
    {
      MergeTiled(size, Bytes(), i);
      StackedFrame(states[..], mem', stacks, slot, size, Merge(size, i));
    }

    lemma AbsorbedSettled(i: int, a: int)
      requires Valid() && i in held && i in size && BlockEnd(size, i) in held && BlockEnd(size, i) in size
      requires a != i && Settled(size, held, a)
      ensures Settled(Merge(size, i), held - {BlockEnd(size, i)}, a)
    {
      var e := BlockEnd(size, i);
      if a in held && a in size && a != e { OnlyFollower(size, Bytes(), i, a); }
    }

    lemma AbsorbedLive(i: int, e: int, mem': Memory)
      requires Consistent() && slot == map[]
      requires i in held && i in size && e == BlockEnd(size, i) && e in held && e in size
      requires |mem'| == states.Length && forall j :: 0 <= j < |mem'| && j != i && j != e ==> mem'[j] == states[j]
      ensures LiveOf(Merge(size, i), slot, held - {e}) == Live()
      ensures Unchanged(states[..], mem', Live())
      ensures heap1Hi / 6 <= i && heap1Hi / 6 <= e
    {
      var after := LiveOf(Merge(size, i), slot, held - {e});
      assert forall a :: a in after <==> a in Live();
    }

    /** Join the marked block at i with the marked block at e that follows it. */
    method Absorb(i: int, e: int, u: uint16, ghost thread: seq<int>)
      requires Valid() && slot == map[] && Threaded(states[..], thread) && Pending(states[..], size, held, thread)
      requires i in held && i in size && e == BlockEnd(size, i) && e in held && e in size
      requires u == size[i] + size[e]
      modifies `size, `held, states
      ensures Valid() && Threaded(states[..], thread) && Pending(states[..], size, held, thread)
      ensures size == Merge(old(size), i) && held == old(held) - {e}
      ensures Live() == old(Live()) && Unchanged(old(states[..]), states[..], Live())
      ensures forall j :: 0 <= j < heap1Hi / 6 ==> states[j] == old(states[j])
    {
      FollowerIsHeld(i, thread);
      BlockFacts(e);
      ghost var mem := states[..];
      var first := State(states[e].sym, states[e].freq, 0);
      var second := states[i].WithU16(u);
      ghost var mem' := mem[e := first][i := second];
      AbsorbedPending(i, e, thread, mem');
      AbsorbedConsistent(i, e, mem');
      AbsorbedLive(i, e, mem');
      states[e] := first;
      states[i] := second;
      assert states[..] == mem';
      size := Merge(size, i);
      held := held - {e};
    }

    /** Second loop of glueing, inner part: grow the block at i over the marked blocks that follow it. */
    method MergeFollowing(i: int, ghost thread: seq<int>)
      requires Valid() && slot == map[] && Threaded(states[..], thread) && Pending(states[..], size, held, thread)
      requires i in held
      modifies `size, `held, states
      ensures Valid() && Threaded(states[..], thread) && Pending(states[..], size, held, thread)
      ensures i in held && held <= old(held) && Settled(size, held, i)
      ensures forall a :: a != i && Settled(old(size), old(held), a) ==> Settled(size, held, a)
      ensures Live() == old(Live()) && Unchanged(old(states[..]), states[..], Live())
      ensures forall j :: 0 <= j < heap1Hi / 6 ==> states[j] == old(states[j])
    {
      hide Stacked;
      hide Live;
      FollowerIsHeld(i, thread);
      BaseInMemory();
      ghost var mem := states[..];
      UnchangedSelf(mem, Live());
      var u: int := states[i].U16();
      var e := i + u * 2;
      while e < states.Length && states[e].succ == FREE_MARK
        invariant Valid() && Threaded(states[..], thread) && Pending(states[..], size, held, thread)
        invariant i in held && held <= old(held) && i in size && u == size[i] && e == BlockEnd(size, i)
          && 0 < i < e <= states.Length
        invariant forall a :: a != i && Settled(old(size), old(held), a) ==> Settled(size, held, a)
        invariant Live() == old(Live()) && Unchanged(mem, states[..], Live())
        invariant forall j :: 0 <= j < heap1Hi / 6 ==> states[j] == old(states[j])
        decreases states.Length - e
      {
        ghost var now := states[..];
        FollowerIsHeld(i, thread);
        u := u + states[e].U16();
        if u > 0xFFFF {
          break;
        }
        forall a | a != i && Settled(size, held, a) ensures Settled(Merge(size, i), held - {e}, a) {
          AbsorbedSettled(i, a);
        }
        Absorb(i, e, u, thread);
        UnchangedTrans(mem, now, states[..], Live());
        FollowerIsHeld(i, thread);
        e := i + u * 2;
      }
      FollowerIsHeld(i, thread);
    }

    /** Second loop of glueing: afterwards no free block can be joined with the next. */
    method MergeAll(freeIndex: int, ghost thread: seq<int>)
      requires Valid() && slot == map[] && Threaded(states[..], thread) && Pending(states[..], size, held, thread)
      requires freeIndex == Top(thread)
      modifies `size, `held, states
      ensures Valid() && Threaded(states[..], thread) && Pending(states[..], size, held, thread)
      ensures forall a :: a in held ==> Settled(size, held, a)
      ensures Live() == old(Live()) && Unchanged(old(states[..]), states[..], Live())
      ensures forall j :: 0 <= j < heap1Hi / 6 ==> states[j] == old(states[j])
    {
      hide Valid;
      hide Settled;
      hide Threaded;
      hide Pending;
      BaseInMemory();
      ghost var k, mem := |thread|, states[..];
      var i := freeIndex;
      assert thread[..k] == thread;
      while i != 0
        invariant 0 <= k <= |thread| && i == Top(thread[..k])
        invariant Valid() && Threaded(states[..], thread) && Pending(states[..], size, held, thread)
        invariant forall j :: k <= j < |thread| ==> thread[j] !in held || Settled(size, held, thread[j])
        invariant Live() == old(Live()) && Unchanged(mem, states[..], Live())
        invariant forall j :: 0 <= j < heap1Hi / 6 ==> states[j] == old(states[j])
        decreases k
      {
        ghost var now := states[..];
        ThreadNext(now, thread, k);
        MarkedIsHeld(now, size, held, thread, i);
        if states[i].succ == FREE_MARK {
          MergeFollowing(i, thread);
          UnchangedTrans(mem, now, states[..], Live());
          ThreadNext(states[..], thread, k);
        }
        i := states[i + 1].succ;
        k := k - 1;
      }
      ThreadNext(states[..], thread, k);
      HeldOnThread(states[..], size, held, thread);
    }

    lemma BlockAddress(n: int)
      requires Valid() && n in held
      ensures n in size && n % 2 == 0 && heap1Hi / 6 <= n && 0 < n && 1 <= size[n] && BlockEnd(size, n) <= states.Length
    {}

    method Unmark(n: int)
      requires Valid() && n in held
      modifies states
      ensures Valid() && 0 <= n < states.Length
      ensures states[..] == old(states[..])[n := State(old(states[n]).sym, old(states[n]).freq, 0)]
    {
      ghost var mem := states[..];
      BlockAddress(n);
      var s := State(states[n].sym, states[n].freq, 0);
      StackedFrame(mem, mem[n := s], stacks, slot, size, size);
      states[n] := s;
    }

    /** Third loop of glueing, inner part: cut the held block at n into listed sizes and free them all. */
    method ReturnBlock(n: int)
      requires Valid() && n in held && 0 <= n < states.Length && states[n].U16() == size[n]
      modifies `size, `stacks, `slot, `held, freeList, states
      ensures Valid()
      ensures held == old(held) - {n}
      ensures OthersKept(old(size), size, old(slot), slot, n)
      ensures Cut(size, slot, n, old(size[n]))
      ensures OnlyLinked(old(states[..]), states[..], n, old(size[n])) && 0 <= states[n].succ
    {
      hide Valid;
      hide Units;
      hide ClassOf;
      hide Unchanged;
      hide LiveOf;
      hide Cut;
      hide Peeled;
      hide OthersKept;
      hide OnlyLinked;
      LargestClass();
      BlockAddress(n);
      Unmark(n);
      var u: int := states[n].U16();
      var m := n;
      PeeledStart(size, held, slot, old(states[..]), states[..], n);
      while u > 128
        invariant Valid() && m in held && m in size && size[m] == u && held == old(held) - {n} + {m}
        invariant m % 2 == 0 && 0 <= states[n].succ && n <= m
        invariant Peeled(old(size), size, old(held), old(slot), slot, old(states[..]), states[..], n, m)
        decreases u
      {
        ghost var size0, slot0, mem := size, slot, states[..];
        PeeledApart(old(size), size, old(held), old(slot), slot, old(states[..]), mem, n, m);
        LayoutFacts();
        PutLargest(m);
        PeeledMore(old(size), size0, size, old(held), old(slot), slot0, slot, old(states[..]), mem, states[..], n, m);
        u := u - 128;
        m := m + 256;
      }
      BlockAddress(m);
      ghost var size0, slot0, mem := size, slot, states[..];
      PeeledApart(old(size), size, old(held), old(slot), slot, old(states[..]), mem, n, m);
      FreeUnits(m, u);
      PeeledLast(old(size), size0, size, old(held), old(slot), slot0, slot, old(states[..]), mem, states[..], n, m);
    }

    /** Cut the largest listed size off the held block at m and list it; the rest stays held. */
    method PutLargest(m: int)
      requires Valid() && m in held && MAX_UNITS < size[m]
      modifies `size, `stacks, `slot, `held, freeList, states
      ensures Valid() && m + 2 * MAX_UNITS !in old(size) && m + 2 * MAX_UNITS !in old(held)
      ensures size == Split(old(size), m, MAX_UNITS) && held == old(held) - {m} + {m + 2 * MAX_UNITS}
      ensures m in slot && slot.Keys == old(slot).Keys + {m}
      ensures 0 <= m < states.Length && exists s: State :: 0 <= s.succ && states[..] == old(states[..])[m := s]
    {
      hide Valid;
      LargestClass();
      BlockAddress(m);
      SplitHeld(m, MAX_UNITS);
      AddFreeBlock(m, CLASS_COUNT - 1);
    }

    /** Third loop of glueing: put every marked block back on the lists. */
    method Redistribute(freeIndex: int, ghost thread: seq<int>)
      requires Valid() && Threaded(states[..], thread) && Pending(states[..], size, held, thread)
      requires freeIndex == Top(thread)
      modifies `size, `stacks, `slot, `held, freeList, states
      ensures Valid() && held == {}
      ensures Recut(old(size), old(held), size, slot)
      ensures Live() == old(Live()) && Unchanged(old(states[..]), states[..], Live())
      ensures forall j :: 0 <= j < heap1Hi / 6 ==> states[j] == old(states[j])
    {
      hide Valid;
      hide Threaded;
      hide Pending;
      hide OthersKept;
      hide OnlyLinked;
      hide Cut;
      hide RecutBut;
      BaseInMemory();
      RecutStart(size, held, slot);
      ghost var k, mem := |thread|, states[..];
      var n := freeIndex;
      assert thread[..k] == thread;
      while n != 0
        invariant 0 <= k <= |thread| && n == Top(thread[..k])
        invariant Valid() && Threaded(states[..], thread) && Pending(states[..], size, held, thread)
        invariant forall j :: k <= j < |thread| ==> thread[j] !in held
        invariant RecutBut(old(size), old(held), held, size, slot)
        invariant Live() == old(Live()) && Unchanged(mem, states[..], Live())
        invariant forall j :: 0 <= j < heap1Hi / 6 ==> states[j] == old(states[j])
        decreases k
      {
        ghost var now, size0, slot0, live := states[..], size, slot, Live();
        ThreadNext(now, thread, k);
        MarkedIsHeld(now, size, held, thread, n);
        if states[n].succ == FREE_MARK {
          ghost var held0 := held;
          ReturnThreaded(n, thread);
          RecutOne(old(size), old(held), held0, size0, slot0, size, slot, n);
          UnchangedTrans(mem, now, states[..], live);
          ThreadNext(states[..], thread, k);
        }
        n := states[n + 1].succ;
        k := k - 1;
      }
      ThreadNext(states[..], thread, k);
      HeldOnThread(states[..], size, held, thread);
      assert forall a :: a !in held;
      assert held == {};
      RecutEnd(old(size), old(held), size, slot);
    }

    method ReturnThreaded(n: int, ghost thread: seq<int>)
      requires Valid() && Threaded(states[..], thread) && Pending(states[..], size, held, thread)
      requires n in held && n in size && 0 <= n < states.Length && states[n].U16() == size[n]
      modifies `size, `stacks, `slot, `held, freeList, states
      ensures Valid() && held == old(held) - {n}
      ensures OthersKept(old(size), size, old(slot), slot, n)
      ensures Cut(size, slot, n, old(size[n])) && n !in old(slot)
      ensures Threaded(states[..], thread) && Pending(states[..], size, held, thread)
      ensures Live() == old(Live()) && Unchanged(old(states[..]), states[..], Live())
      ensures forall j :: 0 <= j < heap1Hi / 6 ==> states[j] == old(states[j])
    {
      ghost var mem, size0, slot0, held0, span := states[..], size, slot, held, Bytes();
      BlockAddress(n);
      LayoutFacts();
      hide Valid;
      ReturnBlock(n);
      ReturnedKept(mem, states[..], size0, size, slot0, slot, held0, n, span);
      ReturnedPending(mem, states[..], size0, size, slot0, slot, held0, thread, n);
    }

    /** Cell x belongs to a block on one of the free lists. */
    ghost predicate IsFree(x: int)
      reads `size, `slot
    {
      exists a :: a in slot && Within(size, a, x)
    }

    /** The free cells are what the gap and the live blocks leave over. */
    lemma FreeIsTheRest(x: int)
      requires Valid() && held == {}
      ensures IsFree(x) <==> Leftover(Live(), Bytes(), x)
    {
      assert forall a :: a in slot ==> a in size by {
        forall a | a in slot ensures a in size { SlotIsBlock(states[..], stacks, slot, size, a); }
      }
      forall a | Within(Live(), a, x) ensures Within(size, a, x) {}
      if heap1Hi / 6 <= x < states.Length {
        Partition(size, Bytes(), x);
        if !(heap2Lo <= x < heap2Hi) {
          var a :| Within(size, a, x);
          if a in slot {
            assert IsFree(x);
          } else {
            assert Within(Live(), a, x);
          }
        }
      }
    }

    /** While no block is listed, the held blocks are what the gap and the live blocks leave over. */
    lemma HeldIsTheRest(x: int)
      requires Valid() && slot == map[]
      ensures (exists a :: a in held && Within(size, a, x)) <==> Leftover(Live(), Bytes(), x)
    {
      forall a | a in held ensures a in size { BlockInMemory(a); }
      forall a | Within(Live(), a, x) ensures Within(size, a, x) {}
      if heap1Hi / 6 <= x < states.Length {
        Partition(size, Bytes(), x);
        if !(heap2Lo <= x < heap2Hi) {
          var a :| Within(size, a, x);
          if a !in held {
            assert Within(Live(), a, x);
          }
        }
      }
    }

    /** Join neighbouring free blocks, and list them again: `merged` and `heads` are the joined blocks, no two of which
        could be joined further, and each now starts with a listed block of the largest size that fits. */
    method GlueFreeBlocks() returns (ghost merged: Layout, ghost heads: set<int>)
      requires Valid() && held == {}
      modifies `size, `stacks, `slot, `held, freeList, states
      ensures Valid() && held == {}
      ensures Glued(merged, heads, old(Live()), old(Bytes()))
      ensures forall x :: IsFree(x) <==> exists a :: a in heads && Within(merged, a, x)
      ensures Recut(merged, heads, size, slot)
      ensures Live() == old(Live()) && Unchanged(old(states[..]), states[..], Live())
      ensures forall j :: 0 <= j < heap1Hi / 6 ==> states[j] == old(states[j])
      ensures forall x :: IsFree(x) <==> old(IsFree(x))
    {
      hide Valid;
      hide Threaded;
      hide Pending;
      hide Settled;
      BaseInMemory();
      ghost var mem, live := states[..], Live();
      ghost var span := Bytes();
      forall x ensures IsFree(x) <==> Leftover(live, span, x) { FreeIsTheRest(x); }
      var freeIndex, thread := CollectFree();
      ghost var mem1 := states[..];
      MergeAll(freeIndex, thread);
      UnchangedTrans(mem, mem1, states[..], live);
      mem1 := states[..];
      merged, heads := size, held;
      HeldBlocks();
      forall x
        ensures (exists a :: a in heads && Within(merged, a, x)) <==> Leftover(live, span, x) { HeldIsTheRest(x); }
      Redistribute(freeIndex, thread);
      UnchangedTrans(mem, mem1, states[..], live);
      forall x ensures IsFree(x) <==> Leftover(live, span, x) { FreeIsTheRest(x); }
    }

    lemma HeldBlocks()
      requires Valid()
      ensures Disjoint(size) && forall a :: a in held ==> a in size
    {}

    /** The memory as far as it decides where a block is taken. */
    ghost function StockNow(): Stock
      reads `heap1Lo, `heap1Hi, `heap2Lo, `heap2Hi, `glueCount, `size, `stacks, `slot, `held
    {
      Stock(Live(), Bytes(), size, slot, stacks, glueCount, heap1Lo, heap1Hi)
    }

    /** Where the list of context c is, when it has several states. */
    ghost function ListNow(c: int): int
      reads states
    {
      if 0 <= c && c + 1 < states.Length then states[c + 1].succ else 0
    }

    /** When the lists from one class on are empty, no joined block holds a block of that class. */
    lemma ShortHeads(merged: Layout, heads: set<int>, index: Class)
      requires Valid() && Recut(merged, heads, size, slot) && forall j :: index <= j < |stacks| ==> stacks[j] == []
      ensures forall a :: a in heads && a in merged ==> merged[a] < Units(index)
    {
      hide FirstPiece;
      hide Units;
      hide Cut;
      assert 0 < Units(index) by { UnitsMonotone(0, index); }
      forall a | a in heads && a in merged && merged[a] > 0 ensures merged[a] < Units(index) {
        CutFirst(size, slot, a, merged[a]);
        SlotIsBlock(states[..], stacks, slot, size, a);
        var i := slot[a].list;
        assert stacks[i] != [] && i < index;
        UnitsMonotone(i, index);
        if merged[a] >= Units(index) {
          UnitsMonotone(0, index);
          FirstPieceIsLargest(merged[a]);
        }
      }
    }

    /** Hand over the first k units of the held block at n and free the rest. */
    method SplitOff(n: int, k: nat, u: nat)
      requires Valid() && held == {n} && n in size && 0 < k < size[n] <= MAX_UNITS && u == size[n] - k
      modifies `size, `stacks, `slot, `held, freeList, states
      ensures Valid() && held == {n} && n in size && size[n] == k && 0 < n && BlockEnd(size, n) <= states.Length
      ensures Live() == old(Live()) && Unchanged(old(states[..]), states[..], Live())
      ensures forall j :: n <= j < n + 2 * k ==> states[j] == old(states[j])
      ensures forall j :: 0 <= j < heap1Hi / 6 ==> states[j] == old(states[j])
      ensures forall a :: a in old(slot) && a in old(size) ==> a in slot && a in size && size[a] == old(size[a])
      ensures Cut(size, slot, n + 2 * k, u)
    {
      hide Valid;
      LayoutFacts();
      BaseInMemory();
      ghost var live := Live();
      SplitHeld(n, k);
      assert Live() == live by { LiveSplit(n, k, old(size), old(held)); }
      LayoutFacts();
      ghost var mem, size0, slot0, held0, span := states[..], size, slot, held, Bytes();
      HeldFacts(n);
      FreeUnits(n + k * 2, u);
      HeldFacts(n);
      ReturnedKept(mem, states[..], size0, size, slot0, slot, held0, n + 2 * k, span);
    }

    lemma LiveSplit(n: int, k: nat, size0: Layout, held0: set<int>)
      requires n in size0 && n in held0 && k < size0[n] && size == Split(size0, n, k) && held == held0 + {n + 2 * k}
      requires n + 2 * k !in size0
      ensures Live() == LiveOf(size0, slot, held0)
    {
      assert forall a :: a in Live() <==> a in LiveOf(size0, slot, held0);
    }

    /** Take a block of the least larger class that has one, and free what is too much. */
    method SplitLarger(index: Class) returns (n: int)
      requires Valid() && held == {}
      modifies `size, `stacks, `slot, `held, freeList, states
      ensures Valid()
      ensures Live() == old(Live()) && Unchanged(old(states[..]), states[..], Live())
      ensures forall j :: 0 <= j < heap1Hi / 6 ==> states[j] == old(states[j])
      ensures 0 <= n
      ensures n == 0 ==> held == {} && stacks == old(stacks) && forall j :: index < j < |stacks| ==> stacks[j] == []
      ensures n == 0 ==> size == old(size) && slot == old(slot)
      ensures n != 0 ==> held == {n} && n in size && size[n] == Units(index)
      ensures n == FirstTop(old(stacks), index + 1)
      ensures n != 0 ==>
        n in old(size) && Units(index) <= old(size[n])
        && Cut(size, slot, n + 2 * Units(index), old(size[n]) - Units(index))
      ensures forall a :: a in old(slot) && a in old(size) && a != n ==>
        a in slot && a in size && size[a] == old(size[a])
    {
      hide Cut;
      hide Tiled;
      hide Valid;
      hide FirstTop;
      StackCount();
      BaseInMemory();
      n := 0;
      var i: nat := index + 1;
      while i < CLASS_COUNT
        invariant index < i <= CLASS_COUNT && n == 0 && slot == old(slot)
        invariant Valid() && held == {} && stacks == old(stacks) && Live() == old(Live()) && size == old(size)
        invariant states[..] == old(states[..])
        invariant forall j :: index < j < i && j < |stacks| ==> stacks[j] == []
      {
        n := RemoveFreeBlock(i);
        if n > 0 {
          FirstTopAt(old(stacks), index + 1, i);
          UnitsMonotone(index, i);
          ghost var mem := states[..];
          SplitOff(n, Units(index), Units(i) - Units(index));
          UnchangedTrans(old(states[..]), mem, states[..], Live());
          return;
        }
        i := i + 1;
      }
      StackCount();
      FirstTopAt(stacks, index + 1, i);
    }

    lemma StackCount()
      requires Valid()
      ensures |stacks| == CLASS_COUNT && forall i :: 0 <= i < CLASS_COUNT ==> 0 <= Top(stacks[i])
    {
      forall i | 0 <= i < CLASS_COUNT ensures 0 <= Top(stacks[i]) { TopInMemory(states[..], stacks, slot, size, i); }
    }

    /** A new block beside the old ones leaves the lists and the live blocks as they are. */
    lemma AddedBlock(n: int, u: nat)
      requires Consistent() && n !in size
      ensures Stacked(states[..], stacks, slot, size[n := u])
      ensures LiveOf(size[n := u], slot, held + {n}) == Live()
      ensures n !in slot
    {
      forall a | a in slot ensures a in size { SlotIsBlock(states[..], stacks, slot, size, a); }
      StackedFrame(states[..], states[..], stacks, slot, size, size[n := u]);
      assert forall a :: a in LiveOf(size[n := u], slot, held + {n}) <==> a in Live();
    }

    lemma WholeUnits(top: int, u: nat)
      requires Valid() && top == heap1Hi - u * UNIT_SIZE && heap1Lo < top
      ensures top % 12 == 0 && top / UNIT_SIZE * 2 == top / 6 == heap1Hi / 6 - 2 * u && 2 <= top / 6
    {
      hide Tiled;
      hide Stacked;
      hide Headed;
      UnitsBelow(heap1Hi, heap1Hi / 12, u);
    }

    /** Take a block from the top of the byte heap, if that leaves the written bytes alone. */
    method ShrinkHeap1(index: Class) returns (n: int)
      requires Valid() && held == {}
      modifies `heap1Hi, `size, `held
      ensures Valid() && heap1Hi <= old(heap1Hi)
      ensures Live() == old(Live())
      ensures n == 0 ==> held == {} && heap1Hi == old(heap1Hi) && heap1Hi - Units(index) * UNIT_SIZE <= heap1Lo
      ensures n != 0 ==> held == {n} && n in size && size[n] == Units(index)
      ensures n != 0 ==> heap1Lo < heap1Hi == old(heap1Hi) - Units(index) * UNIT_SIZE && n == heap1Hi / UNIT_SIZE * 2
      ensures forall a :: a in old(size) ==> a in size && size[a] == old(size[a])
    {
      n := 0;
      var top := heap1Hi - Units(index) * UNIT_SIZE;
      if top > heap1Lo {
        WholeUnits(top, Units(index));
        BaseDownTiled(size, Bytes(), Units(index));
        n := top / UNIT_SIZE * 2;
        AddedBlock(n, Units(index));
        heap1Hi := top;
        size := size[n := Units(index)];
        held := held + {n};
      }
    }

    /** Allocate when the list and the gap have failed: glue, split a larger block, or shrink the byte heap. */
    method AllocUnitsRare(index: Class) returns (n: int)
      requires Valid() && held == {}
      modifies `glueCount, `heap1Hi, `size, `stacks, `slot, `held, freeList, states
      ensures Valid() && heap1Hi <= old(heap1Hi)
      ensures Live() == old(Live()) && Unchanged(old(states[..]), states[..], Live())
      ensures forall j :: 0 <= j < heap1Hi / 6 ==> states[j] == old(states[j])
      ensures n == 0 ==> held == {} && heap1Hi == old(heap1Hi)
      ensures n != 0 ==> held == {n} && n in size && size[n] == Units(index)
      ensures n == 0 && old(stacks[index]) == [] ==> NoRoom(index)
      ensures Sought(old(StockNow()), index, n, StockNow())
    {
      hide Valid;
      hide Unchanged;
      hide Glued;
      hide Recut;
      hide FirstTop;
      hide Relisted;
      hide Sought;
      hide NoRoom;
      hide LiveOf;
      n := 0;
      BaseInMemory();
      ghost var mem, live, before := states[..], Live(), StockNow();
      ghost var merged: Layout, heads: set<int> := map[], {};
      UnchangedSelf(mem, live);
      if glueCount == 0 {
        glueCount := 255;
        n, merged, heads := GlueAndTake(index);
        if n > 0 {
          SoughtListed(before, index, n, StockNow(), merged, heads);
          return;
        }
      }
      ghost var mem1 := states[..];
      n := SplitOrShrink(index, before, merged, heads);
      UnchangedTrans(mem, mem1, states[..], live);
    }

    /** Glue, and take a block of the class if there is one now. */
    method GlueAndTake(index: Class) returns (n: int, ghost merged: Layout, ghost heads: set<int>)
      requires Valid() && held == {}
      modifies `size, `stacks, `slot, `held, freeList, states
      ensures Valid() && 0 <= n
      ensures Live() == old(Live()) && Unchanged(old(states[..]), states[..], Live())
      ensures forall j :: 0 <= j < heap1Hi / 6 ==> states[j] == old(states[j])
      ensures Glued(merged, heads, old(Live()), old(Bytes())) && Relisted(merged, heads, size, slot, n)
      ensures n != 0 ==> held == {n} && n in size && size[n] == Units(index)
      ensures n == 0 ==>
        held == {} && Recut(merged, heads, size, slot) && |stacks| == CLASS_COUNT && stacks[index] == []
    {
      hide Valid;
      hide Glued;
      hide Recut;
      hide Relisted;
      BaseInMemory();
      ghost var mem := states[..];
      merged, heads := GlueFreeBlocks();
      ghost var mem1, size1, slot1 := states[..], size, slot;
      n := RemoveFreeBlock(index);
      RelistedKept(merged, heads, size1, slot1, size, slot, n);
      UnchangedTrans(mem, mem1, states[..], Live());
      StackCount();
    }

    /** Split a larger block, or shrink the byte heap. */
    method SplitOrShrink(index: Class, ghost b: Stock, ghost merged: Layout, ghost heads: set<int>) returns (n: int)
      requires Valid() && held == {} && b.hi == heap1Hi && b.lo == heap1Lo
      requires glueCount == if b.glueCount == 0 then 255 else b.glueCount
      requires if b.glueCount == 0 then
          Glued(merged, heads, b.live, b.span) && Recut(merged, heads, size, slot) && stacks[index] == []
        else b.size == size && b.slot == slot && b.stacks == stacks
      modifies `glueCount, `heap1Hi, `size, `stacks, `slot, `held, freeList, states
      ensures Valid() && heap1Hi <= old(heap1Hi)
      ensures Live() == old(Live()) && Unchanged(old(states[..]), states[..], Live())
      ensures forall j :: 0 <= j < heap1Hi / 6 ==> states[j] == old(states[j])
      ensures n == 0 ==> held == {} && heap1Hi == old(heap1Hi)
      ensures n != 0 ==> held == {n} && n in size && size[n] == Units(index)
      ensures n == 0 && old(stacks[index]) == [] ==> NoRoom(index)
      ensures Sought(b, index, n, StockNow())
    {
      hide Valid;
      hide Glued;
      hide Recut;
      hide FirstTop;
      hide Relisted;
      hide Sought;
      hide Units;
      hide FreeKept;
      hide Unchanged;
      hide LiveOf;
      BaseInMemory();
      ghost var size0, slot0 := size, slot;
      n := SplitLarger(index);
      ghost var listed := n != 0;
      if n == 0 {
        glueCount := glueCount - 1;
        if b.glueCount == 0 {
          ShortHeads(merged, heads, index);
        }
        n := ShrinkHeap1(index);
      }
      if b.glueCount == 0 {
        RelistedKept(merged, heads, size0, slot0, size, slot, n);
      } else {
        KeptFree(b, StockNow(), n);
      }
      if listed {
        SoughtListed(b, index, n, StockNow(), merged, heads);
      } else {
        SoughtLast(b, index, n, StockNow(), merged, heads);
      }
    }

    /** No listed block, and no room above the byte heap, holds a block of this class. */
    ghost predicate NoRoom(index: nat)
      reads `stacks, `heap1Lo, `heap1Hi
    {
      (forall j :: index <= j < |stacks| ==> stacks[j] == []) && heap1Hi - Units(index) * UNIT_SIZE <= heap1Lo
    }

    /** Nor does the gap. */
    ghost predicate Exhausted(index: nat)
      reads `stacks, `heap1Lo, `heap1Hi, `heap2Lo, `heap2Hi
    {
      NoRoom(index) && heap2Lo + Units(index) * 2 > heap2Hi
    }

    /** Take a block from the bottom of the gap. */
    method TakeGapLow(i: Class) returns (n: int)
      requires Valid() && held == {} && heap2Lo + Units(i) * 2 <= heap2Hi
      modifies `heap2Lo, `size, `held
      ensures Valid() && held == {n} && 0 < n < states.Length && n in size && size[n] == Units(i)
      ensures Live() == old(Live()) && states[n].succ != FREE_MARK
      ensures n == old(heap2Lo) && heap2Lo == old(heap2Lo) + Units(i) * 2
    {
      hide LiveOf;
      hide Stacked;
      GapLowTiled(size, Bytes(), Units(i));
      n := heap2Lo;
      assert Floor() <= n < states.Length && n !in held;
      AddedBlock(n, Units(i));
      heap2Lo := heap2Lo + Units(i) * 2;
      size := size[n := Units(i)];
      held := held + {n};
    }

    /** Take one unit from the top of the gap. */
    method TakeGapHigh() returns (n: int)
      requires Valid() && held == {} && heap2Lo < heap2Hi
      modifies `heap2Hi, `size, `held
      ensures Valid() && held == {n} && n != 0 && n in size && size[n] == 1 && n == heap2Hi == old(heap2Hi) - 2
      ensures Live() == old(Live())
    {
      hide Tiled;
      hide LiveOf;
      hide Stacked;
      GapHighTiled(size, Bytes());
      AddedBlock(heap2Hi - 2, 1);
      heap2Hi := heap2Hi - 2;
      n := heap2Hi;
      size := size[n := 1];
      held := held + {n};
    }

    /** Allocate a block of class i. It fails only when no list, gap or byte heap has room for it. */
    method AllocUnits(i: Class) returns (n: int)
      requires Valid() && held == {}
      modifies `glueCount, `heap1Hi, `heap2Lo, `size, `stacks, `slot, `held, freeList, states
      ensures Valid() && heap1Hi <= old(heap1Hi)
      ensures Live() == old(Live()) && Unchanged(old(states[..]), states[..], Live())
      ensures forall j :: 0 <= j < heap1Hi / 6 ==> states[j] == old(states[j])
      ensures n == 0 ==> held == {} && Exhausted(i)
      ensures n == 0 ==> heap1Hi == old(heap1Hi) && heap2Lo == old(heap2Lo)
      ensures n != 0 ==> held == {n} && n in size && size[n] == Units(i)
      ensures old(heap2Lo) + Units(i) * 2 <= old(heap2Hi) ==> 0 < n < states.Length && states[n].succ != FREE_MARK
      ensures Chosen(old(StockNow()), i, n, StockNow())
      ensures n == 0 && old(glueCount) == 0 ==> NoRun(old(Live()), old(Bytes()), Units(i))
    {
      hide NoRun;
      hide Valid;
      hide Sought;
      hide LiveOf;
      BaseInMemory();
      StackCount();
      n := RemoveFreeBlock(i);
      if n > 0 {
        return;
      }
      if heap2Lo + Units(i) * 2 <= heap2Hi {
        n := TakeGapLow(i);
        return;
      }
      ghost var b := StockNow();
      n := AllocUnitsRare(i);
      if n == 0 && b.glueCount == 0 { SoughtNone(b, i, StockNow()); }
    }

    /** Cells of a block that is not on a list may be rewritten with unmarked pointers. */
    lemma CellsWritten(a: int, mem': Memory)
      requires Consistent() && a in size && a !in slot && |mem'| == states.Length
      requires forall j :: 0 <= j < |mem'| && !(a <= j < BlockEnd(size, a)) ==> mem'[j] == states[j]
      requires forall j :: 0 <= j < |mem'| ==> mem'[j] == states[j] || mem'[j].succ != FREE_MARK
      ensures Stacked(mem', stacks, slot, size)
      ensures forall j :: Floor() <= j < states.Length && j !in held ==> mem'[j].succ != FREE_MARK
      ensures forall b :: b in size && b !in held && 0 <= b < states.Length ==> mem'[b].succ != FREE_MARK
      ensures a !in Live() ==> Unchanged(states[..], mem', Live())
      ensures Unchanged(states[..], mem', Live() - {a})
      ensures forall j :: 0 <= j < heap1Hi / 6 ==> mem'[j] == states[j]
    {
      WriteInside(states[..], mem', size, a, Live() - {a});
      forall b | b in slot ensures b in size { SlotIsBlock(states[..], stacks, slot, size, b); }
      StackedFrame(states[..], mem', stacks, slot, size, size);
    }

    /** Fill a held unit and hand it out. */
    method WritePair(n: int, first: State, second: State)
      requires Valid() && held == {n} && n in size && size[n] == 1
      requires first.succ != FREE_MARK && second.succ != FREE_MARK
      modifies `held, states
      ensures Valid() && held == {} && n !in old(Live()) && Live() == old(Live())[n := 1]
      ensures 0 < n && n + 1 < states.Length && states[n] == first && states[n + 1] == second
      ensures Unchanged(old(states[..]), states[..], old(Live()))
      ensures forall j :: 0 <= j < heap1Hi / 6 ==> states[j] == old(states[j])
    {
      ghost var mem, live := states[..], Live();
      BlockFacts(n);
      CellsWritten(n, mem[n := first][n + 1 := second]);
      states[n] := first;
      states[n + 1] := second;
      assert states[..] == mem[n := first][n + 1 := second];
      held := {};
      assert forall a :: a in Live() <==> a in live[n := 1];
    }

    /** Every block handed out belongs to a context, and every context has its blocks. */
    ghost predicate Sound()
      reads `heap1Lo, `heap1Hi, `heap2Lo, `heap2Hi, `size, `stacks, `slot, `held, `contexts, `owner, freeList, states
    {
      Valid() && held == {} && C.Owned(states[..], Live(), contexts, owner)
    }

    /** What context c says: its states, its suffix and its frequency sum. */
    ghost function Content(c: int): C.Context
      requires Sound() && c in contexts
      reads `heap1Lo, `heap1Hi, `heap2Lo, `heap2Hi, `size, `stacks, `slot, `held, `contexts, `owner, freeList, states
    {
      C.View(states[..], Live(), owner, c)
    }

    /** Rewrite one cell of a block that is not on a list. */
    method WriteCell(j: int, s: State, ghost a: int)
      requires Valid() && a in size && a !in slot && a <= j < BlockEnd(size, a) && s.succ != FREE_MARK
      modifies states
      ensures Valid() && 0 <= j < states.Length && states[..] == old(states[..])[j := s]
      ensures Unchanged(old(states[..]), states[..], Live() - {a})
    {
      BlockFacts(a);
      CellsWritten(a, states[..][j := s]);
      states[j] := s;
    }

    /** Hand out a held block whose first cell has been written. */
    ghost method HandOut(n: int)
      requires Valid() && n in held && 0 <= n < states.Length && states[n].succ != FREE_MARK
      modifies `held
      ensures Valid() && n in size && n !in old(Live())
      ensures held == old(held) - {n} && Live() == old(Live())[n := size[n]]
    {
      hide Tiled;
      hide Stacked;
      hide Headed;
      ghost var live := Live();
      held := held - {n};
      assert forall a :: a in Live() <==> a in live[n := size[n]];
    }

    /** Take back a block that was handed out. */
    ghost method TakeBack(p: int)
      requires Valid() && p in Live()
      modifies `held
      ensures Valid() && held == old(held) + {p} && Live() == old(Live()) - {p}
    {
      hide Tiled;
      hide Stacked;
      hide Headed;
      ghost var live := Live();
      held := held + {p};
      assert forall a :: a in Live() <==> a in live - {p};
    }

    /** Copy cells into a held block. */
    method CopyCells(to: int, from: int, count: nat)
      requires Valid() && to in held && to in size && count <= 2 * size[to]
      requires 0 <= from && from + count <= states.Length && (from + count <= to || BlockEnd(size, to) <= from)
      requires forall j :: from <= j < from + count ==> states[j].succ != FREE_MARK
      modifies states
      ensures Valid() && 0 < to && BlockEnd(size, to) <= states.Length
      ensures states[to..to + count] == old(states[from..from + count])
      ensures forall j :: 0 <= j < states.Length && !(to <= j < to + count) ==> states[j] == old(states[j])
      ensures Unchanged(old(states[..]), states[..], Live())
    {
      hide Valid;
      hide Unchanged;
      HeldFacts(to);
      LayoutFacts();
      ghost var mem := states[..];
      var k := 0;
      while k < count
        invariant 0 <= k <= count && Valid()
        invariant forall j :: to <= j < to + k ==> states[j] == old(states[j - to + from])
        invariant forall j :: 0 <= j < states.Length && !(to <= j < to + k) ==> states[j] == old(states[j])
      {
        WriteCell(to + k, states[from + k], to);
        k := k + 1;
      }
      WriteInside(mem, states[..], size, to, Live());
    }

    lemma HeldFacts(a: int)
      requires Valid() && a in held
      ensures a in size && a !in slot && a !in Live() && 0 < a && BlockEnd(size, a) <= states.Length && heap1Hi / 6 <= a
      ensures states.Length < TWO_31
    {}

    lemma LiveFacts(a: int)
      requires Valid() && a in Live()
      ensures a in size && a !in slot && a !in held && size[a] == Live()[a] && 1 <= size[a]
      ensures 0 < a && BlockEnd(size, a) <= states.Length && heap1Hi / 6 <= a && states[a].succ != FREE_MARK
    {}

    lemma ZeroIsNil()
      requires Valid()
      ensures 0 !in Live()
    {}

    lemma ApartFacts(a: int, b: int)
      requires Valid() && a in size && b in size && a != b
      ensures BlockEnd(size, a) <= b || BlockEnd(size, b) <= a
    {}

    /** The states of a context are all unmarked, as every state its users write is. */
    ghost predicate Unflagged(c: int)
      requires Sound() && c in contexts
      reads `heap1Lo, `heap1Hi, `heap2Lo, `heap2Hi, `size, `stacks, `slot, `held, `contexts, `owner, freeList, states
    {
      forall k :: 0 <= k < |Content(c).list| ==> Content(c).list[k].succ != FREE_MARK
    }

    method ContextSetStatesIndex(c: int, n: int32)
      requires Valid() && c in Live() && Live()[c] == 1 && n != FREE_MARK
      modifies states
      ensures Valid() && 0 < c && c + 1 < states.Length
      ensures states[..] == old(states[..])[c + 1 := State(old(states[c + 1]).sym, old(states[c + 1]).freq, n)]
      ensures Unchanged(old(states[..]), states[..], Live() - {c})
      ensures forall j :: 0 <= j < heap1Hi / 6 ==> states[j] == old(states[j])
    {
      LiveFacts(c);
      hide Valid;
      WriteCell(c + 1, State(states[c + 1].sym, states[c + 1].freq, n), c);
    }

    /** Copy the list of context c from its block at p to the held block at q, and exchange the two blocks. */
    method CopyList(p: int, q: int, n: nat, i: Class)
      requires Valid() && held == {q} && q in size && p in Live() && Live()[p] == Units(i)
      requires n <= 2 * size[q] && n <= 2 * Live()[p] && 0 < p && p + n <= states.Length
      requires 1 <= n && forall j :: p <= j < p + n ==> states[j].succ != FREE_MARK
      modifies `stacks, `slot, `held, freeList, states
      ensures Valid() && held == {} && Live() == old(Live())[q := size[q]] - {p} && q !in old(Live())
      ensures 0 < q && q + 2 * size[q] <= states.Length && states[q..q + n] == old(states[p..p + n])
      ensures Unchanged(old(states[..]), states[..], old(Live()) - {p})
      ensures forall j :: 0 <= j < heap1Hi / 6 ==> states[j] == old(states[j])
      ensures stacks == old(stacks[i := stacks[i] + [p]])
    {
      hide Valid;
      hide Unchanged;
      ghost var live0, mem1 := Live(), states[..];
      LiveFacts(p);
      HeldFacts(q);
      ApartFacts(p, q);
      CopyCells(q, p, n);
      ghost var mem2 := states[..];
      assert states[q] == mem2[q..q + n][0] == mem1[p..p + n][0];
      HandOut(q);
      TakeBack(p);
      AddFreeBlock(p, i);
      UnchangedPart(mem1, mem2, live0, live0 - {p});
      UnchangedPart(mem2, states[..], Live(), live0 - {p});
      UnchangedTrans(mem1, mem2, states[..], live0 - {p});
    }

    /** Move the list of context c, n cells long, from its block at p to the held block at q; free the old block. */
    method MoveList(c: int, p: int, q: int, n: nat, i: Class, k: Class, ghost mem0: Memory, ghost list: seq<State>)
      requires Valid() && held == {q} && C.Owned(mem0, Live(), contexts, owner) && c in contexts
      requires Unchanged(mem0, states[..], Live()) && 0 < c && c + 1 < |mem0|
      requires C.NumStates(mem0, c) > 1 && p == C.ListAt(mem0, c) && p in Live() && p != c && Live()[p] == Units(i)
      requires q in size && size[q] == Units(k) && n <= 2 * size[q] && 1 <= n <= 2 * Live()[p] && 0 < p
        && p + n <= |mem0|
      requires list == mem0[p..p + n] && forall j :: 0 <= j < |list| ==> list[j].succ != FREE_MARK
      modifies `stacks, `slot, `held, `owner, freeList, states
      ensures Valid() && held == {}
      ensures C.Rehoused(mem0, states[..], old(Live()), Live(), contexts, old(owner), owner, c, list, k)
      ensures 0 <= c && c + 1 < states.Length && states[c + 1].succ == q
      ensures forall j :: 0 <= j < heap1Hi / 6 ==> states[j] == old(states[j])
      ensures stacks == old(stacks[i := stacks[i] + [p]])
    {
      hide Top;
      hide Tiled;
      hide Headed;
      hide Stacked;
      hide Valid;
      hide Unchanged;
      hide C.Owned;
      hide C.Rehoused;
      hide C.View;
      hide C.Placed;
      hide C.ListOf;
      hide C.ListClass;
      hide C.Others;
      hide Units;
      hide Live;
      ghost var live0, mem1, owner0 := Live(), states[..], owner;
      C.ViewParts(mem0, live0, contexts, owner, c);
      ZeroIsNil();
      LiveFacts(c);
      HeldFacts(q);
      ApartFacts(c, q);
      UnchangedSlice(mem0, mem1, live0, p, n);
      UnchangedCells(mem0, mem1, live0, c);
      assert forall j :: p <= j < p + n ==> mem1[j] == mem1[p..p + n][j - p];
      CopyList(p, q, n, i);
      ghost var mem3 := states[..];
      UnchangedCells(mem1, mem3, live0 - {p}, c);
      ContextSetStatesIndex(c, q);
      owner := owner[q := c];
      C.KeptThroughMove(mem0, mem1, mem3, states[..], live0, owner0, c, p, q, size[q]);
      SliceElsewhere(mem3, c + 1, states[c + 1], q, n);
      C.MovedRehoused(mem0, states[..], live0, Live(), contexts, owner0, c, q, p, list, k);
    }

    /** Put s, the only state of context c, into the held unit at n. */
    method FillUnit(c: int, n: int, s: State, ghost mem0: Memory)
      requires Valid() && held == {n} && n in size && size[n] == 1 && C.Owned(mem0, Live(), contexts, owner)
      requires Unchanged(mem0, states[..], Live()) && c in contexts && 0 < c && c + 1 < |mem0|
      requires C.NumStates(mem0, c) == 1 && s == mem0[c + 1] && s.succ != FREE_MARK
      modifies `held, `owner, states
      ensures Valid() && held == {} && 0 < c && c + 1 < states.Length && ListNow(c) == n
      ensures forall j :: 0 <= j < heap1Hi / 6 ==> states[j] == old(states[j])
      ensures C.Rehoused(mem0, states[..], old(Live()), Live(), contexts, old(owner), owner, c, [s], 1)
    {
      hide Tiled;
      hide Stacked;
      hide Headed;
      hide Valid;
      hide Unchanged;
      hide C.View;
      hide C.Owned;
      hide C.Rehoused;
      hide C.OthersKept;
      hide C.Placed;
      hide Live;
      ghost var mem1, live0, owner0 := states[..], Live(), owner;
      C.ViewParts(mem0, live0, contexts, owner, c);
      ZeroIsNil();
      LiveFacts(c);
      HeldFacts(n);
      ApartFacts(c, n);
      UnchangedCells(mem0, mem1, live0, c);
      ContextSetStatesIndex(c, n);
      ghost var mem2 := states[..];
      WriteCell(n, s, n);
      ghost var mem3 := states[..];
      HandOut(n);
      owner := owner[n := c];
      C.KeptThroughFill(mem0, mem1, mem2, mem3, live0, owner0, c, n);
      C.MovedRehoused(mem0, mem3, live0, Live(), contexts, owner0, c, n, 0, [s], 1);
    }

    /** Move the only state of context c into a block of one unit. */
    method HouseInline(c: int) returns (ok: bool)
      requires Sound() && c in contexts && C.NumStates(states[..], c) == 1 && Unflagged(c)
      modifies `glueCount, `heap1Hi, `heap2Lo, `size, `stacks, `slot, `held, `owner, freeList, states
      ensures Valid() && held == {} && heap1Hi <= old(heap1Hi)
      ensures forall j :: 0 <= j < heap1Hi / 6 ==> states[j] == old(states[j])
      ensures !ok ==> Sound() && Exhausted(1) && forall d :: d in contexts ==> Content(d) == old(Content(d))
      ensures !ok && old(glueCount) == 0 ==> NoRun(old(Live()), old(Bytes()), Units(1))
      ensures ok ==> C.Rehoused(old(states[..]), states[..], old(Live()), Live(), contexts, old(owner), owner,
                                c, old(Content(c).list), 1)
      ensures Chosen(old(StockNow()), 1, if ok then ListNow(c) else 0, StockNow())
    {
      hide Chosen;
      hide Tiled;
      hide NoRun;
      hide C.View;
      hide Live;
      hide Valid;
      hide Exhausted;
      hide Unchanged;
      hide C.Owned;
      hide C.Rehoused;
      hide C.OthersKept;
      hide C.OthersSame;
      hide C.Placed;
      C.ViewParts(states[..], Live(), contexts, owner, c);
      ghost var mem0, live0, owner0, list := states[..], Live(), owner, Content(c).list;
      assert list[0] == states[c + 1] && list[0].succ != FREE_MARK;
      BaseInMemory();
      ZeroIsNil();
      ok := true;
      var s := states[c + 1];
      ghost var b := StockNow();
      var n := AllocUnits(1);
      ghost var mem1, mid := states[..], StockNow();
      if n == 0 {
        C.NoneChanged(mem0, mem1, live0, contexts, owner);
        ok := false;
        return;
      }
      FillUnit(c, n, s, mem0);
      assert list == [s];
      ChosenSame(b, 1, n, mid, StockNow());
    }

    /** Move the list of context c, an even number of states, to a block one class up. */
    method HouseLarger(c: int, ns: nat, i1: Class, i2: Class) returns (ok: bool, ghost mid: Stock)
      requires Sound() && c in contexts && C.NumStates(states[..], c) == ns && Unflagged(c)
      requires 2 <= ns <= 255 && i1 == C.ListClass(ns) && i2 == C.ListClass(ns + 1)
      modifies `glueCount, `heap1Hi, `heap2Lo, `size, `stacks, `slot, `held, `owner, freeList, states
      ensures Valid() && held == {} && heap1Hi <= old(heap1Hi)
      ensures forall j :: 0 <= j < heap1Hi / 6 ==> states[j] == old(states[j])
      ensures !ok ==> Sound() && Exhausted(i2) && forall d :: d in contexts ==> Content(d) == old(Content(d))
      ensures !ok && old(glueCount) == 0 ==> NoRun(old(Live()), old(Bytes()), Units(i2))
      ensures ok ==> C.Rehoused(old(states[..]), states[..], old(Live()), Live(), contexts, old(owner), owner,
                                c, old(Content(c).list), i2)
      ensures Chosen(old(StockNow()), i2, if ok then ListNow(c) else 0, mid)
      ensures if ok then Freed(mid, old(ListNow(c)), i1, StockNow()) else mid == StockNow()
    {
      hide Chosen;
      hide NoRun;
      hide Units;
      hide C.Placed;
      hide C.View;
      hide Live;
      hide Valid;
      hide Exhausted;
      hide C.Owned;
      ghost var mem0, live0, owner0, list := states[..], Live(), owner, Content(c).list;
      C.ViewParts(mem0, live0, contexts, owner, c);
      C.ListFits(ns);
      C.ListFits(ns + 1);
      BaseInMemory();
      hide Unchanged;
      hide C.Rehoused;
      ok := true;
      var n := AllocUnits(i2);
      ghost var mem1 := states[..];
      mid := StockNow();
      StackCount();
      if n == 0 {
        C.NoneChanged(mem0, mem1, live0, contexts, owner);
        ok := false;
        return;
      }
      UnchangedCells(mem0, mem1, live0, c);
      MoveList(c, states[c + 1].succ, n, ns, i1, i2, mem0, list);
    }

    lemma RehousedLive(c: int, n: nat, mem0: Memory, live0: Layout, owner0: map<int, int>, list: seq<State>)
      requires C.Rehoused(mem0, states[..], live0, Live(), contexts, owner0, owner, c, list, C.ListClass(n))
      ensures c in Live() && Live()[c] == 1 && |mem0| == states.Length && 0 < c && c + 1 < states.Length
    {}

    /** Set the number of states of a context whose list has been put in place. */
    method ContextSetNumStates(c: int, n: nat, ghost mem0: Memory, ghost live0: Layout, ghost owner0: map<int, int>,
                               ghost list: seq<State>)
      requires Valid() && held == {} && C.Owned(mem0, live0, contexts, owner0) && c in contexts && 2 <= n <= 256
      requires C.Rehoused(mem0, states[..], live0, Live(), contexts, owner0, owner, c, list, C.ListClass(n))
      modifies states
      ensures Sound() && 0 < c && c + 1 < states.Length
      ensures var p := states[c + 1].succ;
        0 <= p && p + n <= states.Length && Content(c) == C.Context(states[p..p + n], mem0[c].succ, mem0[c + 1].U16())
        && |Content(c).list| == n
      ensures C.OthersSame(mem0, states[..], live0, Live(), contexts, owner0, owner, c)
      ensures var p := states[c + 1].succ; p + |list| <= states.Length && states[p..p + |list|] == list
      ensures ListNow(c) == old(ListNow(c))
      ensures forall j :: 0 <= j < heap1Hi / 6 ==> states[j] == old(states[j])
    {
      hide Valid;
      hide Unchanged;
      hide C.Owned;
      hide C.Rehoused;
      hide C.View;
      hide C.OthersSame;
      hide C.Placed;
      hide Units;
      hide ClassOf;
      hide LiveOf;
      ghost var mem := states[..];
      RehousedLive(c, n, mem0, live0, owner0, list);
      LiveFacts(c);
      LayoutFacts();
      C.Recounted(mem0, mem, live0, Live(), contexts, owner0, owner, c, list, n);
      WriteCell(c, State(n - 1, states[c].freq, states[c].succ), c);
    }

    /** Add a slot to the list of context c, or fail and change no context. */
    method ExpandStates(c: int) returns (ok: bool)
      requires Sound() && c in contexts && |Content(c).list| <= 255 && Unflagged(c)
      modifies `glueCount, `heap1Hi, `heap2Lo, `size, `stacks, `slot, `held, `owner, freeList, states
      ensures Sound() && heap1Hi <= old(heap1Hi)
      ensures forall j :: 0 <= j < heap1Hi / 6 ==> states[j] == old(states[j])
      ensures !ok ==> Exhausted(C.ListClass(|old(Content(c).list)| + 1)) && forall d :: d in contexts ==>
        Content(d) == old(Content(d))
      ensures !ok && old(glueCount) == 0 ==>
        NoRun(old(Live()), old(Bytes()), Units(C.ListClass(|old(Content(c).list)| + 1)))
      ensures Expanded(old(StockNow()), old(ListNow(c)), |old(Content(c).list)|, ok, ListNow(c), StockNow())
      ensures ok ==>
        var before, after := old(Content(c)), Content(c);
        && (forall d :: d in contexts && d != c ==> Content(d) == old(Content(d)))
        && |after.list| == |before.list| + 1 && after.list[..|before.list|] == before.list
        && after.suffix == before.suffix
        && after.summFreq == (if |before.list| == 1 then before.list[0].U16() else before.summFreq)
    {
      hide Expanded;
      hide NoRun;
      hide Headed;
      hide C.ListClass;
      hide C.Placed;
      hide C.View;
      hide Valid;
      hide C.Owned;
      hide C.Rehoused;
      hide C.OthersKept;
      hide Unchanged;
      hide Live;
      hide Units;
      hide ClassOf;
      hide Exhausted;
      hide Chosen;
      ok := true;
      C.ViewParts(states[..], Live(), contexts, owner, c);
      ghost var mem0, live0, owner0, list := states[..], Live(), owner, Content(c).list;
      ghost var b, p := StockNow(), ListNow(c);
      BaseInMemory();
      var ns := states[c].sym + 1;
      C.ListClassStep(ns);
      C.ListFits(ns + 1);
      if ns == 1 {
        ok := HouseInline(c);
        ExpandedInline(b, p, ok, ListNow(c), StockNow());
      } else {
        C.StaysHoused(mem0, live0, contexts, owner, c, ns);
        if ns % 2 == 0 && ClassOf(ns / 2) != ClassOf(ns / 2 + 1) {
          C.ListFits(ns);
          C.ListFits(ns + 1);
          var i1, i2 := ClassOf(ns / 2), ClassOf(ns / 2 + 1);
          ghost var mid;
          ok, mid := HouseLarger(c, ns, i1, i2);
          ExpandedMoved(b, p, ns, i1, i2, ok, ListNow(c), mid, StockNow());
        } else {
          ExpandedStays(b, p, ns, StockNow());
        }
      }
      if !ok {
        return;
      }
      assert C.Rehoused(mem0, states[..], live0, Live(), contexts, owner0, owner, c, list, C.ListClass(ns + 1));
      ContextSetNumStates(c, ns + 1, mem0, live0, owner0, list);
    }

    /** Take the first state of context c back into the context, and free its block. */
    method ShrinkInline(c: int, i1: Class)
      requires Sound() && c in contexts && Unflagged(c)
      requires |Content(c).list| > 1 && i1 == C.ListClass(|Content(c).list|)
      modifies `stacks, `slot, `held, freeList, states
      ensures Sound()
      ensures forall j :: 0 <= j < heap1Hi / 6 ==> states[j] == old(states[j])
      ensures Content(c) == C.Context(old(Content(c).list[..1]), old(Content(c).suffix), 0)
      ensures forall d :: d in contexts && d != c ==> Content(d) == old(Content(d))
      ensures |old(stacks)| == CLASS_COUNT && stacks == old(stacks[i1 := stacks[i1] + [ListNow(c)]])
    {
      hide C.OthersSame;
      hide C.View;
      hide Live;
      hide Valid;
      hide Unchanged;
      hide C.Owned;
      hide C.Placed;
      C.ViewParts(states[..], Live(), contexts, owner, c);
      ghost var mem0, live0, list := states[..], Live(), Content(c).list;
      var n := states[c + 1].succ;
      StackCount();
      LiveFacts(n);
      LiveFacts(c);
      ApartFacts(c, n);
      assert list[0] == states[n];
      WriteCell(c + 1, states[n], c);
      ghost var mem1 := states[..];
      TakeBack(n);
      AddFreeBlock(n, i1);
      assert held == {};
      ghost var mem2 := states[..];
      LiveFacts(c);
      WriteCell(c, State(0, states[c].freq, states[c].succ), c);
      C.KeptThroughDrop(mem0, mem1, mem2, states[..], live0, owner, c, n);
      assert Live() == live0 - {n};
      C.Inlined(mem0, states[..], live0, contexts, owner, c, n);
    }

    /** Free what the block of context c has beyond class k. */
    method CutList(c: int, p: int, i1: Class, k: Class)
      requires Valid() && held == {} && p in Live() && Live()[p] == Units(i1) && k < i1
      requires 0 <= p < states.Length && states[p].succ != FREE_MARK
      modifies `size, `stacks, `slot, `held, freeList, states
      ensures Valid() && held == {} && Live() == old(Live())[p := Units(k)]
      ensures Unchanged(old(states[..]), states[..], Live())
      ensures forall j :: 0 <= j < heap1Hi / 6 ==> states[j] == old(states[j])
      ensures Units(k) < Units(i1)
      ensures forall a :: a in old(slot) && a in old(size) ==> a in slot && a in size && size[a] == old(size[a])
      ensures Cut(size, slot, p + 2 * Units(k), Units(i1) - Units(k))
    {
      hide Valid;
      hide Unchanged;
      UnitsMonotone(k, i1);
      ClassInRange(Units(i1));
      LiveFacts(p);
      BaseInMemory();
      ghost var live0, mem0 := Live(), states[..];
      TakeBack(p);
      SplitOff(p, Units(k), Units(i1) - Units(k));
      HandOut(p);
      UnchangedJoin(mem0, states[..], live0 - {p}, p, Units(k));
    }

    /** Put the first n states of context c into a smaller block, by moving them or by cutting the block. */
    method HouseSmaller(c: int, ns: nat, n: nat, i1: Class, i2: Class)
      requires Sound() && c in contexts && C.NumStates(states[..], c) == ns && Unflagged(c)
      requires 2 <= n < ns && i1 == C.ListClass(ns) && i2 == C.ListClass(n) && i1 != i2
      modifies `size, `stacks, `slot, `held, `owner, freeList, states
      ensures Valid() && held == {}
      ensures forall j :: 0 <= j < heap1Hi / 6 ==> states[j] == old(states[j])
      ensures C.Rehoused(old(states[..]), states[..], old(Live()), Live(), contexts, old(owner), owner,
                         c, old(Content(c).list[..n]), i2)
      ensures Shorter(old(stacks), old(slot), old(size), old(ListNow(c)), i1, i2, ListNow(c), stacks, slot, size)
    {
      hide Top;
      hide ClassOf;
      hide Units;
      hide Cut;
      hide Shorter;
      hide Valid;
      hide Unchanged;
      hide C.Owned;
      hide C.Rehoused;
      hide C.Placed;
      hide Live;
      C.ViewParts(states[..], Live(), contexts, owner, c);
      ghost var mem0, live0, list := states[..], Live(), Content(c).list[..n];
      var p := states[c + 1].succ;
      C.ListFits(n);
      C.ListClassMonotone(n, ns);
      assert list == mem0[p..p + n];
      assert mem0[p] == list[0] && list[0].succ != FREE_MARK;
      BaseInMemory();
      StackCount();
      ghost var stacks0, slot0, size0 := stacks, slot, size;
      var q := RemoveFreeBlock(i2);
      ghost var stacks1 := stacks;
      if q > 0 {
        MoveList(c, p, q, n, i1, i2, mem0, list);
        ShorterMoved(stacks0, slot0, size0, p, i1, i2, q, stacks1, stacks, slot, size);
      } else {
        UnitsMonotone(i2, i1);
        ghost var mem1 := states[..];
        CutList(c, p, i1, i2);
        UnchangedCells(mem1, states[..], Live(), c);
        C.CutRehoused(mem0, states[..], live0, contexts, owner, c, p, n, i2);
        ShorterCut(stacks0, slot0, size0, p, i1, i2, stacks, slot, size);
      }
    }

    /** Keep the first n states of context c. */
    method ShrinkStates(c: int, n: nat)
      requires Sound() && c in contexts && 1 <= n < |Content(c).list| && Unflagged(c)
      modifies `size, `stacks, `slot, `held, `owner, freeList, states
      ensures Sound()
      ensures forall j :: 0 <= j < heap1Hi / 6 ==> states[j] == old(states[j])
      ensures forall d :: d in contexts && d != c ==> Content(d) == old(Content(d))
      ensures Content(c) == C.Context(old(Content(c).list[..n]), old(Content(c).suffix),
                                      if n == 1 then 0 else old(Content(c).summFreq))
      ensures Shrunk(old(StockNow()), old(ListNow(c)), |old(Content(c).list)|, n, ListNow(c), StockNow())
    {
      hide Shorter;
      hide Tiled;
      hide C.Placed;
      hide C.View;
      hide Valid;
      hide Unchanged;
      hide C.Owned;
      hide C.Rehoused;
      hide C.OthersKept;
      hide Live;
      hide Units;
      hide ClassOf;
      C.ViewParts(states[..], Live(), contexts, owner, c);
      ghost var mem0, live0, owner0, list := states[..], Live(), owner, Content(c).list;
      BaseInMemory();
      var ns := states[c].sym + 1;
      C.ListFits(ns);
      C.ListFits(n);
      var i1, i2 := ClassOf((ns + 1) / 2), ClassOf((n + 1) / 2);
      if n == 1 {
        ShrinkInline(c, i1);
        return;
      }
      if i1 != i2 {
        HouseSmaller(c, ns, n, i1, i2);
      } else {
        C.StaysHoused(mem0, live0, contexts, owner, c, n);
        ghost var p := states[c + 1].succ;
        assert list[..n] == mem0[p..p + n];
      }
      assert C.Rehoused(mem0, states[..], live0, Live(), contexts, owner0, owner, c, list[..n], C.ListClass(n));
      ContextSetNumStates(c, n, mem0, live0, owner0, list[..n]);
    }

    /** Make a context with the one state s, or fail and change no context. */
    method NewContext(s: State, suffix: int32) returns (n: int)
      requires Sound() && s.succ != FREE_MARK && suffix != FREE_MARK
      modifies `glueCount, `heap1Hi, `heap2Hi, `size, `stacks, `slot, `held, `contexts, `owner, freeList, states
      ensures Sound() && heap1Hi <= old(heap1Hi)
      ensures forall j :: 0 <= j < heap1Hi / 6 ==> states[j] == old(states[j])
      ensures n == 0 ==> contexts == old(contexts) && NoRoom(1) && heap2Lo >= heap2Hi
      ensures n == 0 && old(glueCount) == 0 ==> NoRun(old(Live()), old(Bytes()), 1)
      ensures ChosenUnit(old(StockNow()), n, StockNow())
      ensures old(heap2Hi) - 2 <= heap2Hi && (old(heap2Lo) < old(heap2Hi) ==> n != 0)
      ensures n != 0 ==>
        n !in old(contexts) && contexts == old(contexts) + {n} && Content(n) == C.Context([s], suffix, 0)
      ensures forall d :: d in old(contexts) ==> d in contexts && Content(d) == old(Content(d))
    {
      hide ChosenUnit;
      hide Chosen;
      hide NoRun;
      hide Valid;
      hide NoRoom;
      hide Unchanged;
      hide C.Owned;
      hide C.OthersKept;
      hide C.Placed;
      BaseInMemory();
      ghost var mem, live, b := states[..], Live(), StockNow();
      n := TakeUnit();
      ghost var mid := StockNow();
      if n == 0 {
        C.NoneChanged(mem, states[..], live, contexts, owner);
        return;
      }
      ghost var mem1 := states[..];
      WritePair(n, State(0, 0, suffix), s);
      UnchangedTrans(mem, mem1, states[..], live);
      C.Created(mem, states[..], live, contexts, owner, n);
      ChosenSame(b, 1, n, mid, StockNow());
      contexts := contexts + {n};
      owner := owner[n := n];
    }

    /** One unit for a context: from the top of the gap, else from the lists, else as AllocUnitsRare finds it. */
    method TakeUnit() returns (n: int)
      requires Valid() && held == {}
      modifies `glueCount, `heap1Hi, `heap2Hi, `size, `stacks, `slot, `held, freeList, states
      ensures Valid() && heap1Hi <= old(heap1Hi)
      ensures Live() == old(Live()) && Unchanged(old(states[..]), states[..], Live())
      ensures forall j :: 0 <= j < heap1Hi / 6 ==> states[j] == old(states[j])
      ensures n == 0 ==> held == {} && NoRoom(1) && heap2Lo >= heap2Hi
      ensures n != 0 ==> held == {n} && n in size && size[n] == 1
      ensures old(heap2Hi) - 2 <= heap2Hi && (old(heap2Lo) < old(heap2Hi) ==> n != 0)
      ensures ChosenUnit(old(StockNow()), n, StockNow())
      ensures n == 0 && old(glueCount) == 0 ==> NoRun(old(Live()), old(Bytes()), 1)
    {
      hide NoRun;
      hide Valid;
      hide NoRoom;
      hide Sought;
      hide LiveOf;
      hide Unchanged;
      BaseInMemory();
      StackCount();
      ghost var mem, live := states[..], Live();
      if heap2Lo < heap2Hi {
        n := TakeGapHigh();
        UnchangedSelf(mem, live);
        return;
      }
      n := RemoveFreeBlock(1);
      if n == 0 {
        ghost var mem0 := states[..];
        ghost var b := StockNow();
        n := AllocUnitsRare(1);
        if n == 0 && b.glueCount == 0 { SoughtNone(b, 1, StockNow()); }
        UnchangedTrans(mem, mem0, states[..], live);
      }
    }

    /** Rewrite state k of context c, as callers do through the slice they hold. */
    method SetState(c: int, k: nat, s: State)
      requires Sound() && c in contexts && k < |Content(c).list| && s.succ != FREE_MARK
      modifies states
      ensures Sound()
      ensures Content(c) == old(Content(c)).(list := old(Content(c).list)[k := s])
      ensures forall d :: d in contexts && d != c ==> Content(d) == old(Content(d))
      ensures forall j :: 0 <= j < heap1Hi / 6 ==> states[j] == old(states[j])
    {
      hide Valid;
      hide C.Owned;
      hide Unchanged;
      hide C.View;
      hide C.Placed;
      hide Live;
      C.ViewParts(states[..], Live(), contexts, owner, c);
      LiveFacts(c);
      LayoutFacts();
      C.StateSet(states[..], Live(), contexts, owner, c, k, s);
      ghost var mem := states[..];
      if states[c].sym == 0 {
        WriteCell(c + 1, s, c);
      } else {
        LiveFacts(states[c + 1].succ);
        WriteCell(states[c + 1].succ + k, s, states[c + 1].succ);
      }
      assert states[..] == mem[C.CellOf(mem, c, k) := s];
    }

    method ContextSetSummFreq(c: int, n: uint16)
      requires Sound() && c in contexts && |Content(c).list| > 1
      modifies states
      ensures Sound()
      ensures Content(c) == old(Content(c)).(summFreq := n)
      ensures forall d :: d in contexts && d != c ==> Content(d) == old(Content(d))
      ensures forall j :: 0 <= j < heap1Hi / 6 ==> states[j] == old(states[j])
    {
      hide Valid;
      hide C.Owned;
      hide Unchanged;
      C.ViewParts(states[..], Live(), contexts, owner, c);
      LiveFacts(c);
      LiveFacts(states[c + 1].succ);
      LayoutFacts();
      C.SummFreqSet(states[..], Live(), contexts, owner, c, n);
      WriteCell(c + 1, states[c + 1].WithU16(n), c);
    }

    /** Forget every block and every byte; memory itself is not cleared. */
    method Restart()
      requires Valid() && held == {}
      modifies `glueCount, `heap1Lo, `heap1Hi, `heap2Lo, `heap2Hi
      modifies `size, `stacks, `slot, `contexts, `owner, freeList
      ensures Sound() && contexts == {} && Live() == map[] && heap1Hi - heap1Lo == heap1MaxBytes
      ensures heap1Lo == UNIT_SIZE + (UNIT_SIZE - heap1MaxBytes % UNIT_SIZE) && heap1Hi == 6 * Floor()
      ensures heap2Lo == Floor() && heap2Hi == states.Length
    {
      hide Tiled;
      hide C.Owned;
      ListHead(0);
      BaseInMemory();
      heap1Lo := UNIT_SIZE + (UNIT_SIZE - heap1MaxBytes % UNIT_SIZE);
      heap1Hi := UNIT_SIZE + (heap1MaxBytes / UNIT_SIZE + 1) * UNIT_SIZE;
      heap2Lo := heap1Hi / UNIT_SIZE * 2;
      heap2Hi := states.Length;
      glueCount := 0;
      forall i | 0 <= i < freeList.Length {
        freeList[i] := 0;
      }
      size, slot := map[], map[];
      stacks := EMPTY_STACKS;
      contexts, owner := {}, map[];
      EmptyIsSound();
    }

    /** Put c on the byte heap. The result points behind it, where the next byte will be; 0 says the heap is full. */
    method PushByte(c: byte) returns (r: int)
      requires Sound() && heap1Lo < heap1Hi
      modifies `heap1Lo, states
      ensures Sound() && heap1Lo == old(heap1Lo) + 1
      ensures r == if heap1Lo >= heap1Hi then 0 else -heap1Lo
      ensures forall k: nat :: k / 6 < states.Length ==>
        ByteAt(states[..], k) == if k == old(heap1Lo) then c else old(ByteAt(states[..], k))
      ensures forall d :: d in contexts ==> Content(d) == old(Content(d))
    {
      hide Tiled;
      hide Stacked;
      hide Headed;
      hide Unchanged;
      hide C.Owned;
      hide ByteAt;
      hide WithCellByte;
      ghost var mem, lo := states[..], heap1Lo;
      ByteCell(ZERO);
      var si, oi := heap1Lo / 6, heap1Lo % 6;
      ByteCell(WithCellByte(states[si], oi, c));
      states[si] := WithCellByte(states[si], oi, c);
      assert states[..] == mem[si := WithCellByte(mem[si], oi, c)];
      heap1Lo := heap1Lo + 1;
      forall k: nat | k / 6 < states.Length
        ensures ByteAt(states[..], k) == if k == lo then c else ByteAt(mem, k)
      {
        StoredByte(mem, lo, c, k);
      }
      C.NoneChanged(mem, states[..], Live(), contexts, owner);
      r := if heap1Lo >= heap1Hi then 0 else -heap1Lo;
    }

    /** The cell that takes the next byte lies below every block. */
    lemma ByteCell(s: State)
      requires Valid() && heap1Lo < heap1Hi
      ensures 0 <= heap1Lo / 6 < states.Length
      ensures var mem' := states[..][heap1Lo / 6 := s];
        && Stacked(mem', stacks, slot, size) && Unchanged(states[..], mem', Live())
        && (forall j :: Floor() <= j < |mem'| && j !in held ==> mem'[j].succ != FREE_MARK)
        && (forall a :: a in size && a !in held && 0 <= a < |mem'| ==> mem'[a].succ != FREE_MARK)
    {
      forall a | a in slot ensures a in size { SlotIsBlock(states[..], stacks, slot, size, a); }
      StackedFrame(states[..], states[..][heap1Lo / 6 := s], stacks, slot, size, size);
    }

    /** Undo the last PushByte; the byte stays but will be written over. */
    method PopByte()
      requires Sound() && 14 <= heap1Lo
      modifies `heap1Lo
      ensures Sound() && heap1Lo == old(heap1Lo) - 1
      ensures forall d :: d in contexts ==> Content(d) == old(Content(d))
    {
      heap1Lo := heap1Lo - 1;
    }

    /** The byte a pointer from PushByte points to. */
    method SuccByte(i: int) returns (b: byte)
      requires i < 0 && -i / 6 < states.Length
      ensures b == ByteAt(states[..], -i)
    {
      b := CellByte(states[-i / 6], -i % 6);
    }

    method ContextNumStates(c: int) returns (n: nat)
      requires Sound() && c in contexts
      ensures n == |Content(c).list| && 1 <= n <= 256
    {
      C.ViewParts(states[..], Live(), contexts, owner, c);
      n := states[c].sym + 1;
    }

    method GetState(c: int, k: nat) returns (s: State)
      requires Sound() && c in contexts && k < |Content(c).list|
      ensures s == Content(c).list[k]
    {
      hide Valid;
      hide C.Owned;
      C.ViewParts(states[..], Live(), contexts, owner, c);
      s := if states[c].sym == 0 then states[c + 1] else states[states[c + 1].succ + k];
    }

    method ContextSummFreq(c: int) returns (n: uint16)
      requires Sound() && c in contexts && |Content(c).list| > 1
      ensures n == Content(c).summFreq
    {
      hide Valid;
      hide C.Owned;
      C.ViewParts(states[..], Live(), contexts, owner, c);
      n := states[c + 1].U16();
    }

    /** Give context c, which has one state, a block for a list that is still to be written. */
    method HouseEmpty(c: int, i: Class)
      requires Sound() && c in contexts && C.NumStates(states[..], c) == 1
      requires heap2Lo + Units(i) * 2 <= heap2Hi
      modifies `glueCount, `heap1Hi, `heap2Lo, `size, `stacks, `slot, `held, `owner, freeList, states
      ensures Valid() && held == {}
      ensures C.Rehoused(old(states[..]), states[..], old(Live()), Live(), contexts, old(owner), owner, c, [], i)
    {
      hide Valid;
      hide C.Owned;
      hide C.Rehoused;
      hide C.View;
      hide C.Placed;
      hide Units;
      hide Unchanged;
      ghost var mem0, live0, owner0 := states[..], Live(), owner;
      C.ViewParts(mem0, live0, contexts, owner, c);
      ZeroIsNil();
      var n := AllocUnits(i);
      ghost var mem1 := states[..];
      LiveFacts(c);
      HeldFacts(n);
      ApartFacts(c, n);
      UnchangedCells(mem0, mem1, live0, c);
      ContextSetStatesIndex(c, n);
      HandOut(n);
      owner := owner[n := c];
      UnchangedSelf(states[..], live0 - {n});
      C.KeptThroughFill(mem0, mem1, states[..], states[..], live0, owner0, c, n);
      C.MovedRehoused(mem0, states[..], live0, Live(), contexts, owner0, c, n, 0, [], i);
    }

    /** Make the first context, with room for ns states, which the caller fills. */
    method NewContextSize(ns: nat) returns (c: int)
      requires Sound() && contexts == {} && 2 <= ns <= 256 && heap2Lo + Units(C.ListClass(ns)) * 2 + 2 <= heap2Hi
      modifies `glueCount, `heap1Hi, `heap2Lo, `heap2Hi, `size, `stacks, `slot, `held, `contexts, `owner, freeList,
               states
      ensures Sound() && contexts == {c}
      ensures |Content(c).list| == ns && Content(c).suffix == 0
    {
      hide Valid;
      hide C.View;
      hide C.Placed;
      hide C.Owned;
      hide C.Rehoused;
      hide Units;
      hide ClassOf;
      C.ListFits(ns);
      c := NewContext(ZERO, 0);
      assert contexts == {c};
      ghost var mem0, live0, owner0 := states[..], Live(), owner;
      C.ViewParts(mem0, live0, contexts, owner, c);
      assert Content(c) == C.View(mem0, live0, owner, c) && mem0[c].succ == 0;
      HouseEmpty(c, ClassOf((ns + 1) / 2));
      ContextSetNumStates(c, ns, mem0, live0, owner0, []);
    }
  }
}

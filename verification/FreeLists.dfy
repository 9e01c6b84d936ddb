/** The state cell of PPM memory, and the free lists threaded through the cells. */
module FreeLists {
  import opened Machine
  import opened SizeClasses
  import opened Tiling

  const FREE_MARK: int32 := -1

  /** One cell: a symbol, its frequency and a pointer. */
  datatype State = State(sym: byte, freq: byte, succ: int32) {
    /** The 16-bit number held by sym and freq together. */
    function U16(): uint16 { sym + 0x100 * freq }

    function WithU16(n: uint16): (s: State)
      ensures s.U16() == n && s.succ == succ
    {
      State(n % 0x100, n / 0x100, succ)
    }
  }

  const ZERO := State(0, 0, 0)

  type Memory = seq<State>

  /** Where a free block stands: which list, and how many blocks lie below it. */
  datatype Slot = Slot(list: nat, depth: nat)

  function Top(stack: seq<int>): int {
    if stack == [] then 0 else stack[|stack| - 1]
  }

  /** The list of class i is the stack of its blocks; each block's first cell links to the block below. */
  ghost predicate Stacked(mem: Memory, stacks: seq<seq<int>>, slot: map<int, Slot>, size: Layout) {
    && |stacks| == CLASS_COUNT
    && (forall i, k :: 0 <= i < CLASS_COUNT && 0 <= k < |stacks[i]| ==>
          Placed(mem, stacks, slot, size, i, k))
    && forall a :: a in slot ==>
         slot[a].list < CLASS_COUNT && slot[a].depth < |stacks[slot[a].list]|
         && stacks[slot[a].list][slot[a].depth] == a
  }

  ghost predicate Placed(mem: Memory, stacks: seq<seq<int>>, slot: map<int, Slot>, size: Layout, i: int, k: int)
    requires 0 <= i < |stacks| && 0 <= k < |stacks[i]|
  {
    var a := stacks[i][k];
    && a in slot && slot[a] == Slot(i, k)
    && a in size && size[a] == Units(i)
    && 0 < a < |mem| && mem[a].succ == Top(stacks[i][..k])
  }

  ghost predicate Headed(heads: seq<int>, stacks: seq<seq<int>>) {
    && |heads| == |stacks| == CLASS_COUNT
    && forall i :: 0 <= i < CLASS_COUNT ==> heads[i] == Top(stacks[i])
  }

  const EMPTY_STACKS: seq<seq<int>> := seq(CLASS_COUNT, _ => [])

  lemma EmptyStacked(mem: Memory, heads: seq<int>)
    requires |heads| == CLASS_COUNT && forall i :: 0 <= i < CLASS_COUNT ==> heads[i] == 0
    ensures Stacked(mem, EMPTY_STACKS, map[], map[]) && Headed(heads, EMPTY_STACKS)
  {}

  /** Pushing a block keeps every other block in place. */
  lemma PushStacked(mem: Memory, stacks: seq<seq<int>>, slot: map<int, Slot>, size: Layout, n: int, i: nat, s: State)
    requires Stacked(mem, stacks, slot, size)
    requires i < CLASS_COUNT && n in size && n !in slot && size[n] == Units(i)
    requires 0 < n < |mem| && s.succ == Top(stacks[i])
    ensures Stacked(mem[n := s], stacks[i := stacks[i] + [n]], slot[n := Slot(i, |stacks[i]|)], size)
  {
    var stacks' := stacks[i := stacks[i] + [n]];
    var slot' := slot[n := Slot(i, |stacks[i]|)];
    var mem' := mem[n := s];
    forall j, k {:trigger Placed(mem', stacks', slot', size, j, k)} | 0 <= j < CLASS_COUNT && 0 <= k < |stacks'[j]|
      ensures Placed(mem', stacks', slot', size, j, k)
    {
      if j == i && k == |stacks[i]| {
        assert stacks'[i][..k] == stacks[i];
      } else {
        assert Placed(mem, stacks, slot, size, j, k);
        assert stacks'[j][..k] == stacks[j][..k];
      }
    }
  }

  /** Popping the top block keeps every other block in place. */
  lemma PopStacked(mem: Memory, stacks: seq<seq<int>>, slot: map<int, Slot>, size: Layout, i: nat, s: State)
    requires Stacked(mem, stacks, slot, size)
    requires i < CLASS_COUNT && stacks[i] != []
    ensures var n := Top(stacks[i]); var below := stacks[i][..|stacks[i]| - 1];
            && 0 < n < |mem| && n in slot && n in size && size[n] == Units(i) && mem[n].succ == Top(below)
            && Stacked(mem[n := s], stacks[i := below], slot - {n}, size)
  {
    var n := Top(stacks[i]);
    var below := stacks[i][..|stacks[i]| - 1];
    assert Placed(mem, stacks, slot, size, i, |stacks[i]| - 1);
    var stacks' := stacks[i := below];
    var mem', slot' := mem[n := s], slot - {n};
    forall j, k {:trigger Placed(mem', stacks', slot', size, j, k)} | 0 <= j < CLASS_COUNT && 0 <= k < |stacks'[j]|
      ensures Placed(mem', stacks', slot', size, j, k)
    {
      assert Placed(mem, stacks, slot, size, j, k);
      assert stacks'[j][..k] == stacks[j][..k];
    }
  }

  /** The lists only depend on the size and the link of the blocks they hold. */
  lemma StackedFrame(mem: Memory, mem': Memory, stacks: seq<seq<int>>, slot: map<int, Slot>, size: Layout,
                     size': Layout)
    requires Stacked(mem, stacks, slot, size) && |mem| == |mem'|
    requires forall a :: a in slot && a in size ==> a in size' && size'[a] == size[a]
    requires forall a :: a in slot && 0 <= a < |mem| ==> mem'[a].succ == mem[a].succ
    ensures Stacked(mem', stacks, slot, size')
  {
    forall j, k | 0 <= j < CLASS_COUNT && 0 <= k < |stacks[j]|
      ensures Placed(mem', stacks, slot, size', j, k)
    {
      assert Placed(mem, stacks, slot, size, j, k);
    }
  }

  lemma TopInMemory(mem: Memory, stacks: seq<seq<int>>, slot: map<int, Slot>, size: Layout, i: nat)
    requires Stacked(mem, stacks, slot, size) && i < CLASS_COUNT
    ensures stacks[i] != [] ==> Top(stacks[i]) in slot && 0 < Top(stacks[i]) < |mem|
  {
    if stacks[i] != [] { assert Placed(mem, stacks, slot, size, i, |stacks[i]| - 1); }
  }

  lemma SlotIsBlock(mem: Memory, stacks: seq<seq<int>>, slot: map<int, Slot>, size: Layout, a: int)
    requires Stacked(mem, stacks, slot, size) && a in slot
    ensures a in size && 0 < a < |mem| && mem[a].succ >= 0 && size[a] == Units(slot[a].list)
  {
    var p := slot[a];
    assert Placed(mem, stacks, slot, size, p.list, p.depth);
    if p.depth > 0 {
      assert Placed(mem, stacks, slot, size, p.list, p.depth - 1);
      assert Top(stacks[p.list][..p.depth]) == stacks[p.list][p.depth - 1];
    }
  }

  /** The cells of every block in `kept` are the same in both memories. */
  ghost predicate Unchanged(mem: Memory, mem': Memory, kept: Layout) {
    && |mem| == |mem'|
    && forall a, j :: a in kept && a <= j < a + 2 * kept[a] && 0 <= j < |mem| ==> mem'[j] == mem[j]
  }

  lemma UnchangedCells(mem: Memory, mem': Memory, kept: Layout, a: int)
    requires Unchanged(mem, mem', kept) && a in kept && 0 <= a && a + 2 * kept[a] <= |mem|
    ensures |mem'| == |mem| && forall j :: a <= j < a + 2 * kept[a] ==> mem'[j] == mem[j]
  {}

  lemma UnchangedSlice(mem: Memory, mem': Memory, kept: Layout, a: int, n: nat)
    requires Unchanged(mem, mem', kept) && a in kept && 0 <= a && n <= 2 * kept[a] && a + n <= |mem|
    ensures |mem'| == |mem| && mem'[a..a + n] == mem[a..a + n]
  {}

  lemma SliceElsewhere(mem: Memory, j: int, s: State, a: int, n: nat)
    requires 0 <= j < |mem| && 0 <= a && a + n <= |mem| && !(a <= j < a + n)
    ensures mem[j := s][a..a + n] == mem[a..a + n]
  {}

  lemma UnchangedPart(mem: Memory, mem': Memory, kept: Layout, part: Layout)
    requires Unchanged(mem, mem', kept)
    requires forall a :: a in part ==> a in kept && kept[a] == part[a]
    ensures Unchanged(mem, mem', part)
  {}

  lemma UnchangedJoin(mem: Memory, mem': Memory, kept: Layout, a: int, u: nat)
    requires Unchanged(mem, mem', kept)
    requires forall j :: a <= j < a + 2 * u && 0 <= j < |mem| ==> mem'[j] == mem[j]
    ensures Unchanged(mem, mem', kept[a := u])
  {}

  lemma UnchangedSelf(mem: Memory, kept: Layout)
    ensures Unchanged(mem, mem, kept)
  {}

  lemma UnchangedTrans(m0: Memory, m1: Memory, m2: Memory, kept: Layout)
    requires Unchanged(m0, m1, kept) && Unchanged(m1, m2, kept)
    ensures Unchanged(m0, m2, kept)
  {}

  /** Writing inside one block leaves the others alone. */
  lemma WriteInside(mem: Memory, mem': Memory, size: Layout, n: int, kept: Layout)
    requires Disjoint(size) && n in size && n !in kept && |mem| == |mem'|
    requires forall a :: a in kept ==> a in size && size[a] == kept[a]
    requires forall j :: 0 <= j < |mem| && !(n <= j < BlockEnd(size, n)) ==> mem'[j] == mem[j]
    ensures Unchanged(mem, mem', kept)
  {}

  /** The blocks in `thread` are chained through their second cells, the last one first. */
  ghost predicate Threaded(mem: Memory, thread: seq<int>) {
    forall k :: 0 <= k < |thread| ==> ThreadedAt(mem, thread, k)
  }

  ghost predicate ThreadedAt(mem: Memory, thread: seq<int>, k: int)
    requires 0 <= k < |thread|
  {
    thread[k] % 2 == 0 && 0 < thread[k] && thread[k] + 1 < |mem| && mem[thread[k] + 1].succ == Top(thread[..k])
  }

  /** The held blocks are on the thread, marked and labelled with their size; the rest of it is unmarked. */
  ghost predicate Pending(mem: Memory, size: Layout, held: set<int>, thread: seq<int>) {
    && (forall a :: a in held ==> PendingAt(mem, size, thread, a))
    && forall a :: a in thread && a !in held && 0 <= a < |mem| ==> mem[a].succ != FREE_MARK
  }

  ghost predicate PendingAt(mem: Memory, size: Layout, thread: seq<int>, a: int) {
    && a in thread && a in size && 0 <= a < |mem|
    && mem[a].succ == FREE_MARK && mem[a].U16() == size[a]
  }

  lemma PendingExtended(mem: Memory, mem': Memory, size: Layout, held: set<int>, thread: seq<int>, n: int)
    requires Pending(mem, size, held, thread) && |mem| == |mem'| && n !in thread
    requires 0 < n && n + 1 < |mem| && n in size && n + 1 !in size
    requires forall a :: a in thread ==> a in held
    requires forall j :: 0 <= j < |mem| && j != n && j != n + 1 ==> mem'[j] == mem[j]
    requires mem'[n].succ == FREE_MARK && mem'[n].U16() == size[n]
    ensures Pending(mem', size, held + {n}, thread + [n])
  {
    forall a | a in held + {n} ensures PendingAt(mem', size, thread + [n], a) {
      if a != n { assert PendingAt(mem, size, thread, a); }
    }
  }

  lemma ThreadTopInMemory(mem: Memory, thread: seq<int>)
    requires Threaded(mem, thread)
    ensures 0 <= Top(thread) && (thread != [] ==> 0 < Top(thread) < |mem|)
  {
    if thread != [] { assert ThreadedAt(mem, thread, |thread| - 1); }
  }

  /** One step down the thread. */
  lemma ThreadNext(mem: Memory, thread: seq<int>, k: nat)
    requires Threaded(mem, thread) && k <= |thread|
    ensures Top(thread[..k]) == 0 ==> k == 0
    ensures k > 0 ==> var i := thread[k - 1];
      i == Top(thread[..k]) && 0 < i && i % 2 == 0 && i + 1 < |mem| && mem[i + 1].succ == Top(thread[..k - 1])
  {
    if k > 0 { assert ThreadedAt(mem, thread, k - 1); }
  }

  lemma MarkedIsHeld(mem: Memory, size: Layout, held: set<int>, thread: seq<int>, a: int)
    requires Pending(mem, size, held, thread) && a in thread && 0 <= a < |mem|
    ensures mem[a].succ == FREE_MARK <==> a in held
    ensures a in held ==> a in size && mem[a].U16() == size[a]
  {
    if a in held { assert PendingAt(mem, size, thread, a); }
  }

  lemma HeldOnThread(mem: Memory, size: Layout, held: set<int>, thread: seq<int>)
    requires Pending(mem, size, held, thread)
    ensures forall a :: a in held ==> a in thread
  {
    forall a | a in held ensures a in thread { assert PendingAt(mem, size, thread, a); }
  }

  lemma ThreadExtended(mem: Memory, mem': Memory, thread: seq<int>, n: int)
    requires Threaded(mem, thread) && |mem| == |mem'|
    requires n !in thread && n % 2 == 0 && 0 < n && n + 1 < |mem|
    requires forall j :: 0 <= j < |mem| && j != n && j != n + 1 ==> mem'[j] == mem[j]
    requires mem'[n + 1].succ == Top(thread)
    ensures Threaded(mem', thread + [n])
  {
    var thread' := thread + [n];
    forall k | 0 <= k < |thread'| ensures ThreadedAt(mem', thread', k) {
      if k < |thread| {
        assert ThreadedAt(mem, thread, k);
        assert thread'[..k] == thread[..k];
      } else {
        assert thread'[..k] == thread;
      }
    }
  }

  /** Rewriting cells at even addresses cannot break the thread. */
  lemma ThreadFrame(mem: Memory, mem': Memory, thread: seq<int>)
    requires Threaded(mem, thread) && |mem| == |mem'|
    requires forall j :: 0 <= j < |mem| && j % 2 == 1 ==> mem'[j] == mem[j]
    ensures Threaded(mem', thread)
  {
    forall k | 0 <= k < |thread| ensures ThreadedAt(mem', thread, k) {
      assert ThreadedAt(mem, thread, k);
    }
  }

  /** A free block cannot be joined with the block after it: that one is not free, or the size would not fit. */
  ghost predicate Settled(size: Layout, held: set<int>, a: int) {
    a in held && a in size && BlockEnd(size, a) in held && BlockEnd(size, a) in size ==>
      size[a] + size[BlockEnd(size, a)] > 0xFFFF
  }
}

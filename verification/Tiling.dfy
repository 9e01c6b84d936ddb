/** Blocks laid end to end. A block is an even address (in states) and a size in units of two states.
    The blocks fill everything from `base` to `end` except one gap from `lo` to `hi`. */
module Tiling {
  datatype Span = Span(base: int, lo: int, hi: int, end: int)

  type Layout = map<int, nat>

  /** The address reached from x after stepping over the gap. */
  function Skip(x: int, s: Span): int {
    if s.lo < s.hi && x == s.lo then s.hi else x
  }

  ghost predicate AtHead(size: Layout, s: Span, x: int) {
    Skip(x, s) in size || Skip(x, s) == s.end
  }

  function BlockEnd(size: Layout, a: int): int
    requires a in size
  {
    a + 2 * size[a]
  }

  ghost predicate Bounds(s: Span) {
    && 0 < s.base <= s.lo <= s.hi <= s.end
    && s.base % 2 == 0 && s.lo % 2 == 0 && s.hi % 2 == 0 && s.end % 2 == 0
  }

  ghost predicate Aligned(size: Layout) {
    forall a :: a in size ==> a % 2 == 0
  }

  ghost predicate InBounds(size: Layout, s: Span) {
    forall a :: a in size ==>
      && 1 <= size[a] && s.base <= a && BlockEnd(size, a) <= s.end
      && (s.lo < s.hi ==> BlockEnd(size, a) <= s.lo || s.hi <= a)
  }

  ghost predicate Disjoint(size: Layout) {
    forall a, b :: a in size && b in size && a < b ==> BlockEnd(size, a) <= b
  }

  ghost predicate Contiguous(size: Layout, s: Span) {
    && AtHead(size, s, s.base)
    && (s.lo < s.hi ==> AtHead(size, s, s.hi))
    && forall a {:trigger FollowedByHead(size, s, a)} :: a in size ==> FollowedByHead(size, s, a)
  }

  ghost predicate FollowedByHead(size: Layout, s: Span, a: int)
    requires a in size
  {
    AtHead(size, s, BlockEnd(size, a))
  }

  ghost predicate Tiled(size: Layout, s: Span) {
    Bounds(s) && Aligned(size) && InBounds(size, s) && Disjoint(size) && Contiguous(size, s)
  }

  /** When the gap is everything, there are no blocks. */
  lemma EmptyTiled(s: Span)
    requires Bounds(s) && s.lo == s.base && s.hi == s.end
    ensures Tiled(map[], s)
  {}

  ghost predicate Within(size: Layout, a: int, x: int) {
    a in size && a <= x < BlockEnd(size, a)
  }

  /** The blocks and the gap partition the span: every address is in the gap or in exactly one block. */
  lemma Partition(size: Layout, s: Span, x: int)
    requires Tiled(size, s) && s.base <= x < s.end
    ensures s.lo <= x < s.hi ==> !exists a :: Within(size, a, x)
    ensures !(s.lo <= x < s.hi) ==> exists a :: Within(size, a, x)
    ensures forall a, b :: Within(size, a, x) && Within(size, b, x) ==> a == b
  {
    if !(s.lo <= x < s.hi) {
      var start := if s.lo < s.hi && s.hi <= x then s.hi else s.base;
      var a := Walk(size, s, start, x);
    }
  }

  lemma {:induction false} Walk(size: Layout, s: Span, from: int, x: int) returns (a: int)
    requires Tiled(size, s) && s.base <= from <= x < s.end && !(s.lo <= x < s.hi)
    requires AtHead(size, s, from) && (s.lo < s.hi ==> s.hi <= from || x < s.lo)
    ensures Within(size, a, x)
    decreases x - from
  {
    if from == s.lo && s.lo < s.hi {
      assert false;
      a := 0;
    } else if x < BlockEnd(size, from) {
      a := from;
    } else {
      assert FollowedByHead(size, s, from);
      a := Walk(size, s, Skip(BlockEnd(size, from), s), x);
    }
  }

  /** Cut the block at a after its first k units. */
  function Split(size: Layout, a: int, k: nat): Layout
    requires a in size && k < size[a]
  {
    size[a := k][a + 2 * k := size[a] - k]
  }

  lemma NothingInside(size: Layout, a: int, x: int)
    requires Disjoint(size) && a in size && a < x < BlockEnd(size, a)
    ensures x !in size
  {}

  lemma SplitInBounds(size: Layout, s: Span, a: int, k: nat)
    requires InBounds(size, s) && Disjoint(size) && a in size && 0 < k < size[a]
    ensures InBounds(Split(size, a, k), s) && Disjoint(Split(size, a, k))
  {
    var b := a + 2 * k;
    var size' := Split(size, a, k);
    forall c, d | c in size' && d in size' && c < d ensures BlockEnd(size', c) <= d {
      assert c == b || c in size;
      assert d == b || d in size;
      if c != b && d != b { assert BlockEnd(size', c) <= BlockEnd(size, c) <= d; }
      if c == b { assert BlockEnd(size', c) == BlockEnd(size, a) <= d; }
    }
  }

  lemma SplitContiguous(size: Layout, s: Span, a: int, k: nat)
    requires Contiguous(size, s) && a in size && 0 < k < size[a] && a + 2 * k !in size
    requires s.lo < s.hi ==> a + 2 * k != s.lo
    ensures Contiguous(Split(size, a, k), s)
  {
    var b := a + 2 * k;
    var size' := Split(size, a, k);
    forall c | c in size' ensures FollowedByHead(size', s, c) {
      if c != b && c != a { assert FollowedByHead(size, s, c); }
      if c == b { assert FollowedByHead(size, s, a); }
    }
  }

  lemma SplitTiled(size: Layout, s: Span, a: int, k: nat)
    requires Tiled(size, s) && a in size && 0 < k < size[a]
    ensures a + 2 * k !in size
    ensures Tiled(Split(size, a, k), s)
  {
    NothingInside(size, a, a + 2 * k);
    SplitInBounds(size, s, a, k);
    SplitContiguous(size, s, a, k);
  }

  /** Join the block at a with the one that follows it. */
  function Merge(size: Layout, a: int): Layout
    requires a in size && BlockEnd(size, a) in size
  {
    var b := BlockEnd(size, a);
    (size - {b})[a := size[a] + size[b]]
  }

  lemma OnlyFollower(size: Layout, s: Span, a: int, c: int)
    requires InBounds(size, s) && Disjoint(size) && a in size && c in size && c != a
    ensures BlockEnd(size, c) != BlockEnd(size, a)
  {}

  lemma MergeDisjoint(size: Layout, s: Span, a: int)
    requires InBounds(size, s) && Disjoint(size) && a in size && BlockEnd(size, a) in size
    ensures Disjoint(Merge(size, a))
  {
    var b := BlockEnd(size, a);
    var size' := Merge(size, a);
    forall c, d | c in size' && d in size' && c < d ensures BlockEnd(size', c) <= d {
      assert c in size && d in size && d != b;
      if c == a { assert b <= d; assert BlockEnd(size', a) == BlockEnd(size, b); }
    }
  }

  lemma MergeContiguous(size: Layout, s: Span, a: int)
    requires InBounds(size, s) && Disjoint(size) && Contiguous(size, s)
    requires a in size && BlockEnd(size, a) in size && s.base <= s.lo <= s.hi
    ensures Contiguous(Merge(size, a), s)
  {
    var b := BlockEnd(size, a);
    var size' := Merge(size, a);
    forall c | c in size' ensures FollowedByHead(size', s, c) {
      if c == a {
        assert FollowedByHead(size, s, b);
      } else {
        assert FollowedByHead(size, s, c);
        OnlyFollower(size, s, a, c);
      }
    }
  }

  lemma MergeTiled(size: Layout, s: Span, a: int)
    requires Tiled(size, s) && a in size && BlockEnd(size, a) in size
    ensures Tiled(Merge(size, a), s)
  {
    var b := BlockEnd(size, a);
    var size' := Merge(size, a);
    MergeDisjoint(size, s, a);
    MergeContiguous(size, s, a);
    assert BlockEnd(size', a) == BlockEnd(size, b);
  }

  lemma AddedDisjoint(size: Layout, n: int, u: nat)
    requires Disjoint(size) && n !in size
    requires forall a :: a in size ==> if a < n then BlockEnd(size, a) <= n else n + 2 * u <= a
    ensures Disjoint(size[n := u])
  {}

  lemma AddedContiguous(size: Layout, s: Span, s': Span, n: int, u: nat)
    requires Contiguous(size, s) && n !in size && s.end == s'.end
    requires forall x :: Skip(x, s) in size || Skip(x, s) == s.end ==> AtHead(size[n := u], s', x)
    requires AtHead(size[n := u], s', n + 2 * u) && AtHead(size[n := u], s', s'.base)
    requires s'.lo < s'.hi ==> AtHead(size[n := u], s', s'.hi)
    ensures Contiguous(size[n := u], s')
  {
    var size' := size[n := u];
    forall c | c in size' ensures FollowedByHead(size', s', c) {
      if c != n { assert FollowedByHead(size, s, c); }
    }
  }

  /** Take u units from the bottom of the gap. */
  lemma GapLowTiled(size: Layout, s: Span, u: nat)
    requires Tiled(size, s) && 1 <= u && s.lo + 2 * u <= s.hi
    ensures s.lo !in size
    ensures Tiled(size[s.lo := u], s.(lo := s.lo + 2 * u))
  {
    AddedDisjoint(size, s.lo, u);
    AddedContiguous(size, s, s.(lo := s.lo + 2 * u), s.lo, u);
  }

  /** Take one unit from the top of the gap. */
  lemma GapHighTiled(size: Layout, s: Span)
    requires Tiled(size, s) && s.lo < s.hi
    ensures s.hi - 2 !in size
    ensures Tiled(size[s.hi - 2 := 1], s.(hi := s.hi - 2))
  {
    AddedDisjoint(size, s.hi - 2, 1);
    AddedContiguous(size, s, s.(hi := s.hi - 2), s.hi - 2, 1);
  }

  /** Add u units below the base. */
  lemma BaseDownTiled(size: Layout, s: Span, u: nat)
    requires Tiled(size, s) && 1 <= u && 0 < s.base - 2 * u
    ensures s.base - 2 * u !in size
    ensures Tiled(size[s.base - 2 * u := u], s.(base := s.base - 2 * u))
  {
    AddedDisjoint(size, s.base - 2 * u, u);
    AddedContiguous(size, s, s.(base := s.base - 2 * u), s.base - 2 * u, u);
  }
}

/** PPM contexts: a context is two cells; its states live in its second cell or in a block of their own. */
module Contexts {
  import opened Machine
  import opened SizeClasses
  import opened Tiling
  import opened FreeLists

  function NumStates(mem: Memory, c: int): nat
    requires 0 <= c < |mem|
  {
    mem[c].sym + 1
  }

  function ListAt(mem: Memory, c: int): int
    requires 0 <= c && c + 1 < |mem|
  {
    mem[c + 1].succ
  }

  /** The class of block that holds n states. */
  function ListClass(n: nat): nat { ClassOf((n + 1) / 2) }

  /** Context c owns its unit and, with more than one state, the block its list is in. */
  ghost predicate Placed(mem: Memory, live: Layout, owner: map<int, int>, c: int) {
    && 0 < c && c + 1 < |mem| && c in live && live[c] == 1 && c in owner && owner[c] == c
    && (NumStates(mem, c) > 1 ==>
          var p := ListAt(mem, c);
          && p in live && p != c && p in owner && owner[p] == c
          && live[p] == Units(ListClass(NumStates(mem, c)))
          && 0 < p && p + 2 * live[p] <= |mem|)
  }

  /** Every live block is a context's unit or its list block, and every context has its blocks. */
  ghost predicate Owned(mem: Memory, live: Layout, contexts: set<int>, owner: map<int, int>) {
    && (forall c :: c in contexts ==> Placed(mem, live, owner, c))
    && forall a :: a in live ==>
         a in owner && owner[a] in contexts
         && (a == owner[a] || (a !in contexts && ListOf(mem, owner[a], a)))
  }

  ghost predicate ListOf(mem: Memory, c: int, a: int) {
    0 <= c && c + 1 < |mem| && NumStates(mem, c) > 1 && a == ListAt(mem, c)
  }

  /** What a context says, wherever it is stored. */
  datatype Context = Context(list: seq<State>, suffix: int, summFreq: nat)

  ghost function View(mem: Memory, live: Layout, owner: map<int, int>, c: int): Context
    requires Placed(mem, live, owner, c)
  {
    var n := NumStates(mem, c);
    if n == 1 then Context([mem[c + 1]], mem[c].succ, 0)
    else
      ListFits(n);
      var p := ListAt(mem, c);
      Context(mem[p..p + n], mem[c].succ, mem[c + 1].U16())
  }

  lemma ListFits(n: nat)
    requires 1 <= n <= 256
    ensures 1 <= ListClass(n) < CLASS_COUNT && n <= 2 * Units(ListClass(n))
  {
    ClassInRange((n + 1) / 2);
  }

  /** One more state needs a larger block only when the old number was even. */
  lemma ListClassStep(n: nat)
    requires 1 <= n <= 255
    ensures ListClass(n) == ClassOf((n + 1) / 2) && ListClass(2) == 1
    ensures n % 2 == 0 ==> ListClass(n) == ClassOf(n / 2) && ListClass(n + 1) == ClassOf(n / 2 + 1)
    ensures n % 2 == 1 && n > 1 ==> ListClass(n + 1) == ListClass(n)
  {
    if n % 2 == 1 { assert (n + 2) / 2 == (n + 1) / 2; } else { assert (n + 1) / 2 == n / 2; }
  }

  /** The parts of a context, as they lie in memory. */
  lemma ViewParts(mem: Memory, live: Layout, contexts: set<int>, owner: map<int, int>, c: int)
    requires Owned(mem, live, contexts, owner) && c in contexts
    ensures c in live && live[c] == 1 && 0 < c && c + 1 < |mem| && c in owner && owner[c] == c
    ensures Placed(mem, live, owner, c)
    ensures var v := View(mem, live, owner, c); var ns := |v.list|; var p := mem[c + 1].succ;
      && NumStates(mem, c) == ns <= 256 && 1 <= ns && v.suffix == mem[c].succ
      && (ns == 1 ==> v.list == [mem[c + 1]])
      && (ns > 1 ==>
          && p in live && p != c && p in owner && owner[p] == c && 0 < p && p + 2 * live[p] <= |mem|
          && live[p] == Units(ListClass(ns)) && 1 <= ListClass(ns) < CLASS_COUNT && ns <= 2 * live[p]
          && v.list == mem[p..p + ns] && v.summFreq == mem[c + 1].U16())
  {
    assert Placed(mem, live, owner, c);
    ListFits(NumStates(mem, c));
  }

  ghost function Others(live: Layout, owner: map<int, int>, c: int): Layout {
    live - (set a | a in live && (a !in owner || owner[a] == c))
  }

  /** The blocks of every context but c are still there, with the same cells. */
  ghost predicate OthersKept(mem0: Memory, mem: Memory, live0: Layout, live: Layout,
                             owner0: map<int, int>, owner: map<int, int>, c: int) {
    && (forall a :: a in live0 && a in owner0 && owner0[a] != c ==>
          a in live && live[a] == live0[a] && a in owner && owner[a] == owner0[a])
    && Unchanged(mem0, mem, Others(live0, owner0, c))
  }

  /** Every context but c is stored soundly before and after, and says the same. */
  ghost predicate OthersSame(mem0: Memory, mem: Memory, live0: Layout, live: Layout, contexts: set<int>,
                             owner0: map<int, int>, owner: map<int, int>, c: int) {
    forall d :: d in contexts && d != c ==>
      Placed(mem0, live0, owner0, d) && Placed(mem, live, owner, d) &&
      View(mem, live, owner, d) == View(mem0, live0, owner0, d)
  }

  /** A context whose blocks are untouched says the same. */
  lemma ViewFrame(mem0: Memory, mem: Memory, live0: Layout, live: Layout, owner0: map<int, int>, owner: map<int, int>,
                  c: int, d: int)
    requires OthersKept(mem0, mem, live0, live, owner0, owner, c)
    requires Placed(mem0, live0, owner0, d) && d != c
    ensures Placed(mem, live, owner, d) && NumStates(mem, d) == NumStates(mem0, d) && mem[d + 1] == mem0[d + 1]
    ensures View(mem, live, owner, d) == View(mem0, live0, owner0, d)
  {
    var kept := Others(live0, owner0, c);
    assert d in kept && kept[d] == 1;
    assert mem[d] == mem0[d] && mem[d + 1] == mem0[d + 1];
    var n := NumStates(mem0, d);
    if n > 1 {
      ListFits(n);
      var p := ListAt(mem0, d);
      assert p in kept && kept[p] == live0[p];
      assert mem[p..p + n] == mem0[p..p + n];
    }
  }

  /** If only the blocks of context c changed, the others still own theirs ... */
  lemma OthersOwned(mem0: Memory, mem: Memory, live0: Layout, live: Layout, contexts: set<int>,
                    owner0: map<int, int>, owner: map<int, int>, c: int)
    requires Owned(mem0, live0, contexts, owner0)
    requires OthersKept(mem0, mem, live0, live, owner0, owner, c)
    requires forall a :: a in live && !(a in live0 && owner0[a] != c) ==>
      a in owner && owner[a] == c && (a == c || (a !in contexts && ListOf(mem, c, a)))
    requires Placed(mem, live, owner, c)
    ensures Owned(mem, live, contexts + {c}, owner)
  {
    forall d | d in contexts + {c} ensures Placed(mem, live, owner, d) {
      if d != c { ViewFrame(mem0, mem, live0, live, owner0, owner, c, d); }
    }
    forall a | a in live
      ensures a in owner && owner[a] in contexts + {c}
        && (a == owner[a] || (a !in contexts + {c} && ListOf(mem, owner[a], a)))
    {
      if a in live0 && owner0[a] != c {
        ViewFrame(mem0, mem, live0, live, owner0, owner, c, owner0[a]);
      }
    }
  }

  /** ... and say what they said. */
  lemma OneChanged(mem0: Memory, mem: Memory, live0: Layout, live: Layout, contexts: set<int>,
                   owner0: map<int, int>, owner: map<int, int>, c: int)
    requires Owned(mem0, live0, contexts, owner0) && Owned(mem, live, contexts + {c}, owner)
    requires OthersKept(mem0, mem, live0, live, owner0, owner, c)
    ensures OthersSame(mem0, mem, live0, live, contexts, owner0, owner, c)
  {
    forall d | d in contexts && d != c
      ensures Placed(mem, live, owner, d) && View(mem, live, owner, d) == View(mem0, live0, owner0, d)
    {
      ViewFrame(mem0, mem, live0, live, owner0, owner, c, d);
    }
  }

  /** If no live block changed, no context did. */
  lemma NoneChanged(mem0: Memory, mem: Memory, live: Layout, contexts: set<int>, owner: map<int, int>)
    requires Owned(mem0, live, contexts, owner) && Unchanged(mem0, mem, live)
    ensures Owned(mem, live, contexts, owner)
    ensures OthersSame(mem0, mem, live, live, contexts, owner, owner, 0) && 0 !in contexts
  {
    assert forall d :: d in contexts ==> d != 0 by {
      forall d | d in contexts ensures d != 0 { assert Placed(mem0, live, owner, d); }
    }
    UnchangedPart(mem0, mem, live, Others(live, owner, 0));
    forall d | d in contexts
      ensures Placed(mem, live, owner, d) && View(mem, live, owner, d) == View(mem0, live, owner, d)
    {
      ViewFrame(mem0, mem, live, live, owner, owner, 0, d);
    }
    forall a | a in live && a != owner[a] ensures ListOf(mem, owner[a], a) {
      ViewFrame(mem0, mem, live, live, owner, owner, 0, owner[a]);
    }
  }

  /** Context c now has its list, which begins with `list`, in a block of class k; its count is still the old one. */
  ghost predicate Rehoused(mem0: Memory, mem: Memory, live0: Layout, live: Layout, contexts: set<int>,
                           owner0: map<int, int>, owner: map<int, int>, c: int, list: seq<State>, k: nat) {
    && OthersKept(mem0, mem, live0, live, owner0, owner, c) && |mem| == |mem0|
    && 0 < c && c + 1 < |mem| && c in live && live[c] == 1 && c in owner && owner[c] == c
    && mem[c] == mem0[c] && mem[c + 1].U16() == mem0[c + 1].U16()
    && ListBlock(mem, live, contexts, owner, c, mem[c + 1].succ, list, k)
    && forall a :: a in live && !(a in live0 && a in owner0 && owner0[a] != c) ==>
         a in owner && owner[a] == c && (a == c || a == mem[c + 1].succ)
  }

  ghost predicate ListBlock(mem: Memory, live: Layout, contexts: set<int>, owner: map<int, int>,
                            c: int, p: int, list: seq<State>, k: nat) {
    && p in live && p != c && p !in contexts && p in owner && owner[p] == c && live[p] == Units(k)
    && 0 < p && p + 2 * live[p] <= |mem| && |list| <= 2 * live[p]
    && mem[p..p + |list|] == list
  }

  function Recount(mem: Memory, c: int, n: nat): Memory
    requires 0 <= c < |mem| && 1 <= n <= 256
  {
    mem[c := State(n - 1, mem[c].freq, mem[c].succ)]
  }

  lemma RecountedKept(mem0: Memory, mem: Memory, live0: Layout, live: Layout,
                      owner0: map<int, int>, owner: map<int, int>, c: int, n: nat)
    requires OthersKept(mem0, mem, live0, live, owner0, owner, c)
    requires 0 <= c < |mem| && 1 <= n <= 256 && c in live && c in owner && owner[c] == c && Disjoint(live)
    ensures OthersKept(mem0, Recount(mem, c, n), live0, live, owner0, owner, c)
  {
    forall a, j | a in Others(live0, owner0, c) && a <= j < a + 2 * live0[a] && 0 <= j < |mem|
      ensures Recount(mem, c, n)[j] == mem0[j]
    {
      assert a in live && a != c;
    }
  }

  lemma RecountedPlaced(mem: Memory, live: Layout, contexts: set<int>, owner: map<int, int>, c: int, list: seq<State>,
                        n: nat)
    requires 0 < c && c + 1 < |mem| && c in live && live[c] == 1 && c in owner && owner[c] == c && Disjoint(live)
    requires 2 <= n <= 256 && ListBlock(mem, live, contexts, owner, c, mem[c + 1].succ, list, ListClass(n))
    ensures Placed(Recount(mem, c, n), live, owner, c)
    ensures var mem' := Recount(mem, c, n); var p := mem'[c + 1].succ;
      0 <= p && p + n <= |mem'| && p + |list| <= |mem'| && mem'[p..p + |list|] == list &&
      View(mem', live, owner, c) == Context(mem'[p..p + n], mem[c].succ, mem[c + 1].U16())
  {
    ListFits(n);
    var p := mem[c + 1].succ;
    assert !(p <= c < p + 2 * live[p]) by {
      if p < c { assert BlockEnd(live, p) <= c; }
    }
    assert Recount(mem, c, n)[p..p + n] == mem[p..p + n];
    assert Recount(mem, c, n)[p..p + |list|] == mem[p..p + |list|];
  }

  /** Setting the count completes the change: only context c has changed. */
  lemma Recounted(mem0: Memory, mem: Memory, live0: Layout, live: Layout, contexts: set<int>,
                  owner0: map<int, int>, owner: map<int, int>, c: int, list: seq<State>, n: nat)
    requires Owned(mem0, live0, contexts, owner0) && c in contexts && 2 <= n <= 256
    requires Rehoused(mem0, mem, live0, live, contexts, owner0, owner, c, list, ListClass(n))
    requires Disjoint(live)
    ensures Owned(Recount(mem, c, n), live, contexts, owner)
    ensures var mem' := Recount(mem, c, n); var p := mem'[c + 1].succ;
      0 <= p && p + n <= |mem'| && p + |list| <= |mem'| && mem'[p..p + |list|] == list &&
      OthersSame(mem0, mem', live0, live, contexts, owner0, owner, c) && Placed(mem', live, owner, c) &&
      View(mem', live, owner, c) == Context(mem'[p..p + n], mem0[c].succ, mem0[c + 1].U16())
  {
    var mem' := Recount(mem, c, n);
    RecountedPlaced(mem, live, contexts, owner, c, list, n);
    RecountedKept(mem0, mem, live0, live, owner0, owner, c, n);
    assert contexts + {c} == contexts;
    OthersOwned(mem0, mem', live0, live, contexts, owner0, owner, c);
    OneChanged(mem0, mem', live0, live, contexts, owner0, owner, c);
  }

  /** A list moved from its block at p (or from inside the context, if p is 0) to a new block at n. */
  lemma MovedRehoused(mem0: Memory, mem: Memory, live0: Layout, live: Layout, contexts: set<int>, owner0: map<int, int>,
                      c: int, n: int, p: int, list: seq<State>, k: nat)
    requires Owned(mem0, live0, contexts, owner0) && c in contexts && 0 < c && c + 1 < |mem0| == |mem|
    requires if NumStates(mem0, c) > 1 then p == ListAt(mem0, c) else p == 0
    requires n !in live0 && 0 < n && n + 2 * Units(k) <= |mem|
    requires live == live0[n := Units(k)] - {p} && 0 !in live0
    requires Unchanged(mem0, mem, Others(live0, owner0, c))
    requires mem[c] == mem0[c] && mem[c + 1].succ == n && mem[c + 1].U16() == mem0[c + 1].U16()
    requires |list| <= 2 * Units(k) && mem[n..n + |list|] == list
    ensures Rehoused(mem0, mem, live0, live, contexts, owner0, owner0[n := c], c, list, k)
  {
    var owner := owner0[n := c];
    assert Placed(mem0, live0, owner0, c);
    forall d | d in contexts ensures d in live0 { assert Placed(mem0, live0, owner0, d); }
    assert ListBlock(mem, live, contexts, owner, c, n, list, k);
    forall a | a in live0 && a in owner0 && owner0[a] != c
      ensures a in live && live[a] == live0[a] && a in owner && owner[a] == owner0[a]
    {
      assert a != p && a != n;
    }
    forall a | a in live && !(a in live0 && a in owner0 && owner0[a] != c)
      ensures a in owner && owner[a] == c && (a == c || a == n)
    {
      if a != n { assert a in live0 && (a == c || ListOf(mem0, c, a)); }
    }
  }

  /** A list that is in a block already needs no new one. */
  lemma StaysHoused(mem: Memory, live: Layout, contexts: set<int>, owner: map<int, int>, c: int, n: nat)
    requires Owned(mem, live, contexts, owner) && c in contexts && 0 < c && c + 1 < |mem|
    requires NumStates(mem, c) > 1 && 1 <= n <= NumStates(mem, c)
    ensures var p := ListAt(mem, c);
            0 <= p && p + n <= |mem| &&
            Rehoused(mem, mem, live, live, contexts, owner, owner, c, mem[p..p + n], ListClass(NumStates(mem, c)))
  {
    ViewParts(mem, live, contexts, owner, c);
  }

  /** A list whose block was cut short keeps the states that are still in it. */
  lemma CutRehoused(mem0: Memory, mem: Memory, live0: Layout, contexts: set<int>, owner: map<int, int>, c: int, p: int,
                    n: nat, k: nat)
    requires Owned(mem0, live0, contexts, owner) && c in contexts && 0 < c && c + 1 < |mem0|
    requires NumStates(mem0, c) > 1 && p == ListAt(mem0, c) && p in live0 && Units(k) <= live0[p]
    requires 1 <= n <= NumStates(mem0, c) && n <= 2 * Units(k) && c != p
    requires Unchanged(mem0, mem, live0[p := Units(k)])
    ensures 0 <= p && p + n <= |mem0|
    ensures Rehoused(mem0, mem, live0, live0[p := Units(k)], contexts, owner, owner, c, mem0[p..p + n], k)
  {
    ViewParts(mem0, live0, contexts, owner, c);
    var live := live0[p := Units(k)];
    UnchangedPart(mem0, mem, live, Others(live0, owner, c));
    UnchangedSlice(mem0, mem, live, p, n);
    UnchangedCells(mem0, mem, live, c);
  }

  lemma ListClassMonotone(m: nat, n: nat)
    requires 1 <= m <= n <= 256
    ensures ListClass(m) <= ListClass(n)
  {}

  /** A context that takes its one remaining state back gives up its block. */
  lemma Inlined(mem0: Memory, mem: Memory, live0: Layout, contexts: set<int>, owner: map<int, int>, c: int, p: int)
    requires Owned(mem0, live0, contexts, owner) && c in contexts && 0 < c && c + 1 < |mem0| == |mem|
    requires NumStates(mem0, c) > 1 && p == ListAt(mem0, c) && 0 <= p < |mem|
    requires Unchanged(mem0, mem, Others(live0, owner, c))
    requires mem[c].sym == 0 && mem[c].succ == mem0[c].succ && mem[c + 1] == mem0[p]
    ensures Owned(mem, live0 - {p}, contexts, owner)
    ensures OthersSame(mem0, mem, live0, live0 - {p}, contexts, owner, owner, c)
    ensures Placed(mem, live0 - {p}, owner, c) && Placed(mem0, live0, owner, c)
    ensures var v := View(mem0, live0, owner, c);
            |v.list| > 1 && View(mem, live0 - {p}, owner, c) == Context(v.list[..1], v.suffix, 0)
  {
    ViewParts(mem0, live0, contexts, owner, c);
    var live := live0 - {p};
    assert contexts + {c} == contexts;
    assert OthersKept(mem0, mem, live0, live, owner, owner, c);
    assert Placed(mem, live, owner, c);
    forall a | a in live && !(a in live0 && owner[a] != c) ensures a == c {
      assert a in live0 && (a == c || ListOf(mem0, c, a));
    }
    OthersOwned(mem0, mem, live0, live, contexts, owner, owner, c);
    OneChanged(mem0, mem, live0, live, contexts, owner, owner, c);
    assert View(mem, live, owner, c).list == View(mem0, live0, owner, c).list[..1];
  }

  /** Allocating, moving a list from p to q and repointing its context c leave the other contexts alone. */
  lemma KeptThroughMove(m0: Memory, m1: Memory, m2: Memory, m3: Memory, live0: Layout, owner: map<int, int>,
                        c: int, p: int, q: int, u: nat)
    requires p in owner && owner[p] == c && c in owner && owner[c] == c && q !in live0
    requires Unchanged(m0, m1, live0) && Unchanged(m1, m2, live0 - {p})
    requires Unchanged(m2, m3, live0[q := u] - {p} - {c})
    ensures Unchanged(m0, m3, Others(live0, owner, c))
  {
    var others := Others(live0, owner, c);
    UnchangedPart(m0, m1, live0, others);
    UnchangedPart(m1, m2, live0 - {p}, others);
    UnchangedPart(m2, m3, live0[q := u] - {p} - {c}, others);
    UnchangedTrans(m0, m1, m2, others);
    UnchangedTrans(m0, m2, m3, others);
  }

  /** Allocating q, pointing context c at it and writing it leave the other contexts alone. */
  lemma KeptThroughFill(m0: Memory, m1: Memory, m2: Memory, m3: Memory, live0: Layout, owner: map<int, int>, c: int,
                        q: int)
    requires c in owner && owner[c] == c && q !in live0
    requires Unchanged(m0, m1, live0) && Unchanged(m1, m2, live0 - {c}) && Unchanged(m2, m3, live0 - {q})
    ensures Unchanged(m0, m3, Others(live0, owner, c))
  {
    var others := Others(live0, owner, c);
    UnchangedPart(m0, m1, live0, others);
    UnchangedPart(m1, m2, live0 - {c}, others);
    UnchangedPart(m2, m3, live0 - {q}, others);
    UnchangedTrans(m0, m1, m2, others);
    UnchangedTrans(m0, m2, m3, others);
  }

  /** Repointing context c, freeing its block n and recounting it leave the other contexts alone. */
  lemma KeptThroughDrop(m0: Memory, m1: Memory, m2: Memory, m3: Memory, live0: Layout, owner: map<int, int>, c: int,
                        n: int)
    requires c in owner && owner[c] == c && n in owner && owner[n] == c
    requires Unchanged(m0, m1, live0 - {c}) && Unchanged(m1, m2, live0 - {n}) && Unchanged(m2, m3, live0 - {n} - {c})
    ensures Unchanged(m0, m3, Others(live0, owner, c))
  {
    var others := Others(live0, owner, c);
    UnchangedPart(m0, m1, live0 - {c}, others);
    UnchangedPart(m1, m2, live0 - {n}, others);
    UnchangedPart(m2, m3, live0 - {n} - {c}, others);
    UnchangedTrans(m0, m1, m2, others);
    UnchangedTrans(m0, m2, m3, others);
  }

  /** Where state k of context c is stored. */
  function CellOf(mem: Memory, c: int, k: nat): int
    requires 0 <= c && c + 1 < |mem|
  {
    if NumStates(mem, c) == 1 then c + 1 else ListAt(mem, c) + k
  }

  lemma OneCellKept(mem: Memory, live: Layout, owner: map<int, int>, c: int, b: int, j: int, s: State)
    requires Disjoint(live) && b in live && b in owner && owner[b] == c && b <= j < b + 2 * live[b] && 0 <= j < |mem|
    ensures OthersKept(mem, mem[j := s], live, live, owner, owner, c)
  {}

  lemma InlineStateSet(mem: Memory, live: Layout, owner: map<int, int>, c: int, s: State)
    requires Placed(mem, live, owner, c) && NumStates(mem, c) == 1
    ensures var mem' := mem[c + 1 := s]; var v := View(mem, live, owner, c);
      Placed(mem', live, owner, c) && |v.list| == 1 && View(mem', live, owner, c) == v.(list := v.list[0 := s])
  {}

  lemma BlockStateSet(mem: Memory, live: Layout, owner: map<int, int>, c: int, k: nat, s: State)
    requires Placed(mem, live, owner, c) && NumStates(mem, c) > 1 && k < NumStates(mem, c) && Disjoint(live)
    ensures var j := ListAt(mem, c) + k; 0 < j < |mem| && Placed(mem[j := s], live, owner, c)
    ensures ListAt(mem, c) in live && k < 2 * live[ListAt(mem, c)]
    ensures var mem' := mem[ListAt(mem, c) + k := s]; var v := View(mem, live, owner, c);
      |v.list| == NumStates(mem, c) && View(mem', live, owner, c) == v.(list := v.list[k := s])
  {
    var n := NumStates(mem, c);
    ListFits(n);
    var b := ListAt(mem, c);
    var mem' := mem[b + k := s];
    Apart(live, c, b, c);
    Apart(live, c, b, c + 1);
    assert mem'[b..b + n] == mem[b..b + n][k := s];
  }

  /** Rewriting state k of context c changes that state and nothing else. */
  lemma StateSet(mem: Memory, live: Layout, contexts: set<int>, owner: map<int, int>, c: int, k: nat, s: State)
    requires Owned(mem, live, contexts, owner) && c in contexts && Disjoint(live) && 0 < c && c + 1 < |mem|
    requires k < NumStates(mem, c)
    ensures 0 < CellOf(mem, c, k) < |mem| && Placed(mem, live, owner, c)
    ensures var mem' := mem[CellOf(mem, c, k) := s]; var v := View(mem, live, owner, c);
      && Owned(mem', live, contexts, owner)
      && OthersSame(mem, mem', live, live, contexts, owner, owner, c) && Placed(mem', live, owner, c)
      && k < |v.list| && View(mem', live, owner, c) == v.(list := v.list[k := s])
  {
    hide View;
    assert Placed(mem, live, owner, c);
    var j := CellOf(mem, c, k);
    if NumStates(mem, c) == 1 {
      InlineStateSet(mem, live, owner, c, s);
      OneCellKept(mem, live, owner, c, c, j, s);
    } else {
      BlockStateSet(mem, live, owner, c, k, s);
      OneCellKept(mem, live, owner, c, ListAt(mem, c), j, s);
    }
    Rewritten(mem, live, contexts, owner, c, j, s);
  }

  lemma Rewritten(mem: Memory, live: Layout, contexts: set<int>, owner: map<int, int>, c: int, j: int, s: State)
    requires Owned(mem, live, contexts, owner) && c in contexts && 0 <= j < |mem| && Placed(mem, live, owner, c)
    requires Placed(mem[j := s], live, owner, c) && NumStates(mem[j := s], c) == NumStates(mem, c)
    requires NumStates(mem, c) > 1 ==> ListAt(mem[j := s], c) == ListAt(mem, c)
    requires OthersKept(mem, mem[j := s], live, live, owner, owner, c)
    ensures Owned(mem[j := s], live, contexts, owner)
    ensures OthersSame(mem, mem[j := s], live, live, contexts, owner, owner, c)
  {
    assert contexts + {c} == contexts;
    OthersOwned(mem, mem[j := s], live, live, contexts, owner, owner, c);
    OneChanged(mem, mem[j := s], live, live, contexts, owner, owner, c);
  }

  lemma Apart(size: Layout, a: int, b: int, j: int)
    requires Disjoint(size) && a in size && b in size && a != b && Within(size, a, j)
    ensures !Within(size, b, j)
  {}

  /** Rewriting the frequency sum of context c changes the sum and nothing else. */
  lemma SummFreqSet(mem: Memory, live: Layout, contexts: set<int>, owner: map<int, int>, c: int, n: uint16)
    requires Owned(mem, live, contexts, owner) && c in contexts && Disjoint(live) && 0 < c && c + 1 < |mem|
    requires NumStates(mem, c) > 1 && Placed(mem, live, owner, c)
    ensures var mem' := mem[c + 1 := mem[c + 1].WithU16(n)]; var v := View(mem, live, owner, c);
      && Owned(mem', live, contexts, owner)
      && OthersSame(mem, mem', live, live, contexts, owner, owner, c) && Placed(mem', live, owner, c)
      && View(mem', live, owner, c) == v.(summFreq := n)
  {
    ViewParts(mem, live, contexts, owner, c);
    var mem' := mem[c + 1 := mem[c + 1].WithU16(n)];
    OneCellKept(mem, live, owner, c, c, c + 1, mem[c + 1].WithU16(n));
    var p := ListAt(mem, c);
    Apart(live, c, p, c + 1);
    assert contexts + {c} == contexts;
    OthersOwned(mem, mem', live, live, contexts, owner, owner, c);
    OneChanged(mem, mem', live, live, contexts, owner, owner, c);
    ListFits(NumStates(mem, c));
    assert mem'[p..p + NumStates(mem, c)] == mem[p..p + NumStates(mem, c)];
  }

  /** A fresh context owns its unit and says what was written there. */
  lemma Created(mem0: Memory, mem: Memory, live0: Layout, contexts: set<int>, owner: map<int, int>, n: int)
    requires Owned(mem0, live0, contexts, owner) && Unchanged(mem0, mem, live0)
    requires n !in live0 && 0 < n && n + 1 < |mem| && mem[n].sym == 0
    ensures n !in contexts
    ensures Owned(mem, live0[n := 1], contexts + {n}, owner[n := n])
    ensures OthersSame(mem0, mem, live0, live0[n := 1], contexts, owner, owner[n := n], n)
    ensures Placed(mem, live0[n := 1], owner[n := n], n)
    ensures View(mem, live0[n := 1], owner[n := n], n) == Context([mem[n + 1]], mem[n].succ, 0)
  {
    forall d | d in contexts ensures d in live0 { assert Placed(mem0, live0, owner, d); }
    UnchangedPart(mem0, mem, live0, Others(live0, owner, n));
    assert OthersKept(mem0, mem, live0, live0[n := 1], owner, owner[n := n], n);
    OthersOwned(mem0, mem, live0, live0[n := 1], contexts, owner, owner[n := n], n);
    OneChanged(mem0, mem, live0, live0[n := 1], contexts, owner, owner[n := n], n);
  }
}

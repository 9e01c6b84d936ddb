/** What rescaling the frequencies of a context means: halve, sort, drop the zeros. */
module Rescaling {
  import opened Machine
  import opened Bits
  import opened FreeLists
  import opened Contexts

  const MAX_FREQ := 124

  function HalveFreq(f: byte, bump: nat): byte
    requires bump <= 1
  {
    (f + bump) / 2
  }

  function Halve(s: State, bump: nat): State
    requires bump <= 1
  {
    State(s.sym, HalveFreq(s.freq, bump), s.succ)
  }

  function HalveAll(list: seq<State>, bump: nat): (r: seq<State>)
    requires bump <= 1
    ensures |r| == |list| && forall i :: 0 <= i < |list| ==> r[i] == Halve(list[i], bump)
  {
    if list == [] then [] else HalveAll(list[..|list| - 1], bump) + [Halve(list[|list| - 1], bump)]
  }

  /** How far down t belongs in a list by falling frequency: below every state that is at least as frequent. */
  function InsertPos(list: seq<State>, t: State): (p: nat)
    ensures p <= |list|
  {
    if list == [] || t.freq <= list[|list| - 1].freq then |list| else InsertPos(list[..|list| - 1], t)
  }

  function Insert(list: seq<State>, t: State): (r: seq<State>)
    ensures |r| == |list| + 1
  {
    var p := InsertPos(list, t);
    list[..p] + [t] + list[p..]
  }

  function SortStates(list: seq<State>): (r: seq<State>)
    ensures |r| == |list|
  {
    if list == [] then [] else Insert(SortStates(list[..|list| - 1]), list[|list| - 1])
  }

  ghost predicate Falling(list: seq<State>) {
    forall i, j :: 0 <= i < j < |list| ==> list[j].freq <= list[i].freq
  }

  function SumFreq(list: seq<State>): nat {
    if list == [] then 0 else SumFreq(list[..|list| - 1]) + list[|list| - 1].freq
  }

  /** The states whose frequency is still positive, in order. */
  function Survivors(list: seq<State>): seq<State> {
    if list == [] then []
    else if list[|list| - 1].freq == 0 then Survivors(list[..|list| - 1])
    else Survivors(list[..|list| - 1]) + [list[|list| - 1]]
  }

  lemma {:induction false} InsertPosSplits(list: seq<State>, t: State)
    requires Falling(list)
    ensures var p := InsertPos(list, t);
      && (forall i :: 0 <= i < p ==> t.freq <= list[i].freq)
      && (forall i :: p <= i < |list| ==> list[i].freq < t.freq)
  {
    if !(list == [] || t.freq <= list[|list| - 1].freq) {
      InsertPosSplits(list[..|list| - 1], t);
    }
  }

  lemma InsertSorts(list: seq<State>, t: State)
    requires Falling(list)
    ensures Falling(Insert(list, t))
    ensures multiset(Insert(list, t)) == multiset(list) + multiset{t}
  {
    InsertPosSplits(list, t);
    var p := InsertPos(list, t);
    assert list == list[..p] + list[p..];
  }

  /** SortStates sorts by falling frequency and keeps every state. */
  lemma {:induction false} SortStatesSorts(list: seq<State>)
    ensures Falling(SortStates(list)) && multiset(SortStates(list)) == multiset(list)
  {
    if list != [] {
      var n := |list| - 1;
      SortStatesSorts(list[..n]);
      InsertSorts(SortStates(list[..n]), list[n]);
      assert list == list[..n] + [list[n]];
    }
  }

  lemma {:induction false} SumOfInsert(list: seq<State>, p: nat, t: State)
    requires p <= |list|
    ensures SumFreq(list[..p] + [t] + list[p..]) == SumFreq(list) + t.freq
  {
    var r := list[..p] + [t] + list[p..];
    if p == |list| {
      assert r[..|r| - 1] == list;
    } else {
      var n := |list| - 1;
      assert r[..|r| - 1] == list[..n][..p] + [t] + list[..n][p..];
      SumOfInsert(list[..n], p, t);
    }
  }

  lemma {:induction false} SumOfSort(list: seq<State>)
    ensures SumFreq(SortStates(list)) == SumFreq(list)
  {
    if list != [] {
      var n := |list| - 1;
      SumOfSort(list[..n]);
      var sorted := SortStates(list[..n]);
      SumOfInsert(sorted, InsertPos(sorted, list[n]), list[n]);
    }
  }

  lemma {:induction false} AllSurvive(list: seq<State>)
    requires forall i :: 0 <= i < |list| ==> list[i].freq > 0
    ensures Survivors(list) == list
  {
    if list != [] { AllSurvive(list[..|list| - 1]); }
  }

  lemma FallingPrefix(list: seq<State>)
    requires Falling(list) && list != []
    ensures Falling(list[..|list| - 1])
    ensures list[|list| - 1].freq > 0 ==> forall i :: 0 <= i < |list| ==> list[i].freq > 0
  {}

  /** In a falling list the survivors come first, and they make up the whole sum. */
  lemma {:induction false} SurvivorsFirst(list: seq<State>)
    requires Falling(list)
    ensures |Survivors(list)| <= |list| && Survivors(list) == list[..|Survivors(list)|]
    ensures forall i :: 0 <= i < |list| ==> (list[i].freq > 0 <==> i < |Survivors(list)|)
    ensures SumFreq(Survivors(list)) == SumFreq(list)
  {
    hide Falling;
    if list != [] {
      var n := |list| - 1;
      FallingPrefix(list);
      if list[n].freq > 0 {
        AllSurvive(list);
      } else {
        var before := list[..n];
        SurvivorsFirst(before);
        var m := |Survivors(before)|;
        assert before[..m] == list[..m];
        assert forall i :: 0 <= i < n ==> before[i] == list[i];
      }
    }
  }

  lemma {:induction false} SurvivorsCount(list: seq<State>, s: State)
    ensures multiset(Survivors(list))[s] == if s.freq > 0 then multiset(list)[s] else 0
  {
    if list != [] {
      var n := |list| - 1;
      SurvivorsCount(list[..n], s);
      assert list == list[..n] + [list[n]];
    }
  }

  /** What is left of the only surviving state's frequency once the escape count has run down. */
  function Decay(f: byte, escape: nat): (r: byte)
    ensures f > 0 ==> 0 < r <= f
    decreases escape
  {
    var f' := f - f / 2;
    if escape / 2 <= 1 then f' else Decay(f', escape / 2)
  }

  /** The list of states with the chosen one raised, halved and sorted. */
  function Rescaled(list: seq<State>, k: nat, bump: nat): seq<State>
    requires k < |list| && list[k].freq <= 251 && bump <= 1
  {
    SortStates(HalveAll(Raise(list, k), bump))
  }

  /** The chosen state is the most frequent one, so it comes first; its symbol and pointer are its own. */
  lemma RescaledFirst(list: seq<State>, k: nat, bump: nat)
    requires k < |list| && bump <= 1 && MAX_FREQ < list[k].freq <= 128
    requires forall i :: 0 <= i < |list| && i != k ==> list[i].freq <= MAX_FREQ
    ensures var r := Rescaled(list, k, bump);
      && r == SortStates(HalveAll(Raise(list, k), bump)) && |r| == |list| && Falling(r)
      && r[0] == Halve(State(list[k].sym, list[k].freq + 4, list[k].succ), bump)
      && 64 <= r[0].freq <= 66 && |Survivors(r)| >= 1
      && forall i :: 1 <= i < |r| ==> r[i].freq <= 62
  {
    hide Falling;
    hide SortStates;
    hide HalveAll;
    hide Survivors;
    hide SumFreq;
    var raised := list[k := State(list[k].sym, list[k].freq + 4, list[k].succ)];
    var halved := HalveAll(raised, bump);
    var r := SortStates(halved);
    SortStatesSorts(halved);
    SurvivorsFirst(r);
    LargeIsFirst(halved, r, k, 62);
    forall i | 1 <= i < |r| ensures r[i].freq <= 62 {
      OthersSmall(halved, r, k, 62, i);
    }
  }

  lemma WithoutOne(a: seq<State>, k: nat)
    requires k < |a|
    ensures multiset(a[..k] + a[k + 1..]) == multiset(a) - multiset{a[k]}
  {
    assert a == a[..k] + [a[k]] + a[k + 1..];
  }

  lemma MemberBounded(a: seq<State>, x: State, bound: nat)
    requires x in multiset(a) && forall i :: 0 <= i < |a| ==> a[i].freq <= bound
    ensures x.freq <= bound
  {}

  lemma FirstIsLargest(b: seq<State>, x: State)
    requires Falling(b) && x in multiset(b)
    ensures b != [] && x.freq <= b[0].freq
  {}

  /** If just one element exceeds a bound, it comes first in every falling permutation, */
  lemma LargeIsFirst(a: seq<State>, b: seq<State>, k: nat, bound: nat)
    requires multiset(a) == multiset(b) && k < |a| && a[k].freq > bound && Falling(b)
    requires forall i :: 0 <= i < |a| && i != k ==> a[i].freq <= bound
    ensures b != [] && b[0] == a[k]
  {
    hide Falling;
    assert a[k] in multiset(b);
    FirstIsLargest(b, a[k]);
    assert b[0] in multiset(a);
  }

  /** ... and the others stay within the bound. */
  lemma OthersSmall(a: seq<State>, b: seq<State>, k: nat, bound: nat, i: nat)
    requires multiset(a) == multiset(b) && k < |a| && 1 <= i < |b| && b[0] == a[k]
    requires forall i :: 0 <= i < |a| && i != k ==> a[i].freq <= bound
    ensures b[i].freq <= bound
  {
    var rest, rest' := a[..k] + a[k + 1..], b[..0] + b[1..];
    WithoutOne(a, k);
    WithoutOne(b, 0);
    assert rest'[i - 1] == b[i];
    assert b[i] in multiset(rest');
    MemberBounded(rest, b[i], bound);
  }

  lemma {:induction false} SumOfHalves(list: seq<State>, bump: nat)
    requires bump <= 1
    ensures 2 * SumFreq(HalveAll(list, bump)) <= SumFreq(list) + |list|
  {
    if list != [] {
      var n := |list| - 1;
      SumOfHalves(list[..n], bump);
      assert HalveAll(list, bump)[..n] == HalveAll(list[..n], bump);
    }
  }

  lemma {:induction false} SumOfUpdate(list: seq<State>, k: nat, s: State)
    requires k < |list|
    ensures SumFreq(list[k := s]) == SumFreq(list) - list[k].freq + s.freq
  {
    var n := |list| - 1;
    if k < n {
      SumOfUpdate(list[..n], k, s);
      assert list[k := s][..n] == list[..n][k := s];
    } else {
      assert list[k := s][..n] == list[..n];
    }
  }

  lemma {:induction false} SumAtLeastCount(list: seq<State>)
    requires forall i :: 0 <= i < |list| ==> 1 <= list[i].freq
    ensures |list| <= SumFreq(list)
  {
    if list != [] { SumAtLeastCount(list[..|list| - 1]); }
  }

  /** The escape count after rescaling, as 16-bit arithmetic leaves it. */
  function EscapeCount(list: seq<State>, summFreq: uint16, dropped: nat): uint16 {
    Wrap16(summFreq - SumFreq(list) + dropped)
  }

  /** The new frequency sum, as 16-bit arithmetic leaves it. */
  function NewSumm(survivors: seq<State>, escape: uint16): uint16 {
    Wrap16(SumFreq(survivors) + escape - escape / 2)
  }

  lemma SurvivorSum(list: seq<State>, k: nat, bump: nat)
    requires k < |list| && bump <= 1 && MAX_FREQ < list[k].freq <= 128
    requires forall i :: 0 <= i < |list| && i != k ==> list[i].freq <= MAX_FREQ
    ensures var survivors := Survivors(Rescaled(list, k, bump));
      1 <= |survivors| <= |list| && 2 * SumFreq(survivors) <= SumFreq(list) + 4 + |list|
  {
    hide Falling;
    hide SortStates;
    hide SumFreq;
    hide Survivors;
    var raised := list[k := State(list[k].sym, list[k].freq + 4, list[k].succ)];
    var r := Rescaled(list, k, bump);
    RescaledFirst(list, k, bump);
    SurvivorsFirst(r);
    SumOfSort(HalveAll(raised, bump));
    SumOfHalves(raised, bump);
    SumOfUpdate(list, k, raised[k]);
  }

  lemma SumWithLarge(list: seq<State>, k: nat)
    requires k < |list| && MAX_FREQ < list[k].freq && forall i :: 0 <= i < |list| ==> 1 <= list[i].freq
    ensures |list| + MAX_FREQ <= SumFreq(list)
  {
    var rest := list[k := State(list[k].sym, 1, list[k].succ)];
    SumOfUpdate(list, k, rest[k]);
    SumAtLeastCount(rest);
  }

  /** A sum that left a share for the escape symbol still does: nothing wraps, and the new share is positive. */
  lemma EscapeShareKept(list: seq<State>, k: nat, bump: nat, summFreq: uint16)
    requires 2 <= |list| <= 256 && k < |list| && bump <= 1 && MAX_FREQ < list[k].freq <= 128
    requires forall i :: 0 <= i < |list| ==> 1 <= list[i].freq
    requires forall i :: 0 <= i < |list| && i != k ==> list[i].freq <= MAX_FREQ
    requires SumFreq(list) < summFreq
    ensures |Survivors(Rescaled(list, k, bump))| <= |list|
    ensures var survivors := Survivors(Rescaled(list, k, bump));
      var escape := EscapeCount(list, summFreq, |list| - |survivors|);
      && escape == summFreq - SumFreq(list) + (|list| - |survivors|) && 1 <= escape - escape / 2
      && NewSumm(survivors, escape) == SumFreq(survivors) + (escape - escape / 2)
  {
    hide SumFreq;
    hide Survivors;
    hide Rescaled;
    SurvivorSum(list, k, bump);
    SumWithLarge(list, k);
  }

  /** Inserting the next state in place extends the sorted part. */
  lemma SortStep(list: seq<State>, i: nat)
    requires i < |list|
    ensures var sorted := SortStates(list[..i]); var p := InsertPos(sorted, list[i]);
      SortStates(list[..i + 1]) == sorted[..p] + [list[i]] + sorted[p..]
  {
    assert list[..i + 1][..i] == list[..i];
  }

  /** State i moved up to place j, the states between moved one down. */
  function Moved(list: seq<State>, j: nat, i: nat): seq<State>
    requires j <= i < |list|
  {
    list[..j] + [list[i]] + list[j..i] + list[i + 1..]
  }

  /** Half-way there: everything from m on has moved down, and place m is still to be written. */
  function Moving(list: seq<State>, m: nat, i: nat): (r: seq<State>)
    requires m <= i < |list|
    ensures |r| == |list|
  {
    list[..m] + [list[m]] + list[m..i] + list[i + 1..]
  }

  lemma MovingStart(list: seq<State>, i: nat)
    requires i < |list|
    ensures Moving(list, i, i) == list
  {}

  lemma MovingStep(list: seq<State>, m: nat, i: nat)
    requires 0 < m <= i < |list|
    ensures Moving(list, m, i)[m - 1] == list[m - 1]
    ensures Moving(list, m, i)[m := list[m - 1]] == Moving(list, m - 1, i)
  {}

  lemma MovingEnd(list: seq<State>, j: nat, i: nat)
    requires j <= i < |list|
    ensures Moving(list, j, i)[j := list[i]] == Moved(list, j, i)
  {}

  function Raise(list: seq<State>, k: nat): (r: seq<State>)
    requires k < |list| && list[k].freq <= 251
    ensures |r| == |list|
  {
    list[k := State(list[k].sym, list[k].freq + 4, list[k].succ)]
  }

  /** The list after i rounds: the first i states halved and sorted, the rest as they were. */
  function Partly(raised: seq<State>, bump: nat, i: nat): (r: seq<State>)
    requires i <= |raised| && bump <= 1
    ensures |r| == |raised|
  {
    SortStates(HalveAll(raised, bump)[..i]) + raised[i..]
  }

  /** A place found by walking up from the end of the sorted part is the insertion place. */
  lemma InsertPosStep(list: seq<State>, j: nat, t: State)
    requires j <= |list|
    ensures j > 0 && t.freq > list[j - 1].freq ==> InsertPos(list[..j], t) == InsertPos(list[..j - 1], t)
    ensures j == 0 || t.freq <= list[j - 1].freq ==> InsertPos(list[..j], t) == j
  {
    if j > 0 { assert list[..j][..j - 1] == list[..j - 1]; }
  }

  lemma MovedConcat(sorted: seq<State>, h: State, rest: seq<State>, p: nat)
    requires p <= |sorted|
    ensures Moved(sorted + [h] + rest, p, |sorted|) == sorted[..p] + [h] + sorted[p..] + rest
  {
    var list := sorted + [h] + rest;
    assert list[..p] == sorted[..p];
    assert list[p..|sorted|] == sorted[p..];
    assert list[|sorted| + 1..] == rest;
  }

  lemma HalvedInPlace(sorted: seq<State>, raised: seq<State>, i: nat, h: State)
    requires i < |raised| && |sorted| == i
    ensures var now := sorted + raised[i..];
      now[i] == raised[i] && now[i := h] == sorted + [h] + raised[i + 1..] && now[i := h][..i] == sorted
  {}

  /** One round: halve state i, and move it up to its place. */
  lemma Round(raised: seq<State>, bump: nat, i: nat)
    requires i < |raised| && bump <= 1
    ensures var now := Partly(raised, bump, i); var h := Halve(raised[i], bump);
      var sorted := SortStates(HalveAll(raised, bump)[..i]);
      && now[i] == raised[i] && |sorted| == i && now[i := h][..i] == sorted
      && InsertPos(sorted, h) <= i
      && Moved(now[i := h], InsertPos(sorted, h), i) == Partly(raised, bump, i + 1)
  {
    hide SortStates;
    hide HalveAll;
    hide Moved;
    hide InsertPos;
    var halved := HalveAll(raised, bump);
    var h := Halve(raised[i], bump);
    var sorted := SortStates(halved[..i]);
    SortStep(halved, i);
    HalvedInPlace(sorted, raised, i, h);
    MovedConcat(sorted, h, raised[i + 1..], InsertPos(sorted, h));
  }

  lemma StayedMoved(list: seq<State>, i: nat)
    requires i < |list|
    ensures Moved(list, i, i) == list
  {}

  lemma PartlyEnds(raised: seq<State>, bump: nat)
    requires bump <= 1
    ensures Partly(raised, bump, 0) == raised
    ensures Partly(raised, bump, |raised|) == SortStates(HalveAll(raised, bump))
  {
    hide Halve;
    hide Insert;
    assert HalveAll(raised, bump)[..|raised|] == HalveAll(raised, bump);
    assert SortStates(HalveAll(raised, bump)[..0]) == [];
  }

  /** Sums over the states seen so far. */
  lemma SumStep(list: seq<State>, i: nat)
    requires i < |list|
    ensures SumFreq(list[..i + 1]) == SumFreq(list[..i]) + list[i].freq
  {
    assert list[..i + 1][..i] == list[..i];
  }

  lemma NoneSummed(a: seq<State>, b: seq<State>)
    ensures SumFreq(a[..0]) == 0 == SumFreq(b[..0])
  {}

  lemma {:induction false} SumBounded(list: seq<State>, bound: nat)
    requires forall i :: 0 <= i < |list| ==> list[i].freq <= bound
    ensures SumFreq(list) <= bound * |list|
  {
    if list != [] {
      SumBounded(list[..|list| - 1], bound);
      assert bound * |list| == bound * (|list| - 1) + bound;
    }
  }

  /** What a context says after state k has pushed its frequency past the limit. */
  function RescaledContext(v: Context, k: nat, bump: nat): Context
    requires 2 <= |v.list| && k < |v.list| && bump <= 1 && MAX_FREQ < v.list[k].freq <= 128 && v.summFreq < TWO_16
    requires forall i :: 0 <= i < |v.list| && i != k ==> v.list[i].freq <= MAX_FREQ
  {
    SurvivorSum(v.list, k, bump);
    var survivors := Survivors(Rescaled(v.list, k, bump));
    var escape := EscapeCount(v.list, v.summFreq, |v.list| - |survivors|);
    if |survivors| == 1 then
      var s := survivors[0];
      Context([State(s.sym, Decay(s.freq, escape), s.succ)], v.suffix, 0)
    else Context(survivors, v.suffix, NewSumm(survivors, escape))
  }

  /** The loops' running 16-bit counts come to the escape count and the sum of the survivors. */
  lemma CountsMeet(list: seq<State>, k: nat, bump: nat, summFreq: uint16, dropped: nat)
    requires k < |list| && bump <= 1 && MAX_FREQ < list[k].freq <= 128
    requires forall i :: 0 <= i < |list| && i != k ==> list[i].freq <= MAX_FREQ
    ensures Wrap16(Wrap16(Wrap16(summFreq + 4) - SumFreq(Raise(list, k))) + dropped)
      == EscapeCount(list, summFreq, dropped)
    ensures SumFreq(HalveAll(Raise(list, k), bump)) == SumFreq(Survivors(Rescaled(list, k, bump)))
  {
    hide SumFreq;
    hide SortStates;
    hide Falling;
    SumOfUpdate(list, k, Raise(list, k)[k]);
    Wrap16Sub(summFreq + 4, SumFreq(Raise(list, k)));
    Wrap16Add(summFreq - SumFreq(list), dropped);
    SumOfSort(HalveAll(Raise(list, k), bump));
    RescaledFirst(list, k, bump);
    SurvivorsFirst(Rescaled(list, k, bump));
  }

  /** A context with its list sorted, once the states of frequency zero are gone and the sum is set. */
  function Finished(v: Context, escape0: uint16, sum: uint16): Context
    requires Survivors(v.list) != [] && |Survivors(v.list)| <= |v.list|
  {
    var survivors := Survivors(v.list);
    var escape := Wrap16(escape0 + (|v.list| - |survivors|));
    if |survivors| == 1 then
      var s := survivors[0];
      Context([State(s.sym, Decay(s.freq, escape), s.succ)], v.suffix, 0)
    else Context(survivors, v.suffix, Wrap16(sum + escape - escape / 2))
  }

  lemma FinishedIsRescaled(v: Context, k: nat, bump: nat)
    requires 2 <= |v.list| && k < |v.list| && bump <= 1 && MAX_FREQ < v.list[k].freq <= 128 && v.summFreq < TWO_16
    requires forall i :: 0 <= i < |v.list| && i != k ==> v.list[i].freq <= MAX_FREQ
    requires SumFreq(HalveAll(Raise(v.list, k), bump)) < TWO_16
    ensures var sorted := Rescaled(v.list, k, bump);
      && Survivors(sorted) != [] && |Survivors(sorted)| <= |sorted| == |v.list|
      && RescaledContext(v, k, bump) ==
         Finished(v.(list := sorted), Wrap16(Wrap16(v.summFreq + 4) - SumFreq(Raise(v.list, k))),
                  SumFreq(HalveAll(Raise(v.list, k), bump)))
  {
    hide SumFreq;
    hide HalveAll;
    hide SortStates;
    hide Falling;
    hide Survivors;
    RescaledFirst(v.list, k, bump);
    SurvivorSum(v.list, k, bump);
    var sorted := Rescaled(v.list, k, bump);
    CountsMeet(v.list, k, bump, v.summFreq, |v.list| - |Survivors(sorted)|);
  }

  /** The survivors are the halved states of positive frequency, each as often as before, by falling frequency;
      the first is the state that was chosen. */
  lemma SurvivorsAreTheHalved(list: seq<State>, k: nat, bump: nat)
    requires k < |list| && bump <= 1 && MAX_FREQ < list[k].freq <= 128
    requires forall i :: 0 <= i < |list| && i != k ==> list[i].freq <= MAX_FREQ
    ensures var survivors := Survivors(Rescaled(list, k, bump)); var halved := HalveAll(Raise(list, k), bump);
      && Falling(survivors) && survivors != []
      && survivors[0].sym == list[k].sym && survivors[0].succ == list[k].succ
      && forall s :: multiset(survivors)[s] == if s.freq > 0 then multiset(halved)[s] else 0
  {
    hide SortStates;
    hide Survivors;
    hide HalveAll;
    hide SumFreq;
    var r := Rescaled(list, k, bump);
    var halved := HalveAll(Raise(list, k), bump);
    RescaledFirst(list, k, bump);
    SurvivorsFirst(r);
    SortStatesSorts(halved);
    assert Survivors(r)[0] == r[0];
    forall s ensures multiset(Survivors(r))[s] == if s.freq > 0 then multiset(halved)[s] else 0 {
      SurvivorsCount(r, s);
    }
  }

  // What rescaling does to the frequencies, in numbers.

  /** h is what is left of s: half its frequency, rounded up or down. */
  ghost predicate HalvedFrom(h: State, s: State, up: bool) {
    h.sym == s.sym && h.succ == s.succ
    && if up then 2 * h.freq == s.freq || 2 * h.freq == s.freq + 1 else 2 * h.freq == s.freq || 2 * h.freq == s.freq - 1
  }

  /** How many states have at least this frequency. */
  function CountFrom(list: seq<State>, least: nat): (n: nat)
    ensures n <= |list|
  {
    if list == [] then 0
    else CountFrom(list[..|list| - 1], least) + if list[|list| - 1].freq >= least then 1 else 0
  }

  /** State j of the list, with the chosen one raised by 4. */
  function RaisedAt(list: seq<State>, k: nat, j: nat): State
    requires k < |list| && j < |list| && list[k].freq <= 251
  {
    if j == k then State(list[k].sym, list[k].freq + 4, list[k].succ) else list[j]
  }

  ghost predicate SomeHalf(h: State, before: seq<State>, k: nat, up: bool)
    requires k < |before| && before[k].freq <= 251
  {
    exists j: nat :: j < |before| && HalvedFrom(h, RaisedAt(before, k, j), up)
  }

  ghost predicate HasHalf(s: State, after: seq<State>, up: bool) {
    exists i: nat :: i < |after| && HalvedFrom(after[i], s, up)
  }

  /** With the frequencies rounded up, all states of positive frequency are left; rounded down, those of at least 2.
      Each that is left is half of one, and of each that stays there is a half. */
  ghost predicate HalvedFairly(before: seq<State>, k: nat, up: bool, after: seq<State>)
    requires k < |before| && before[k].freq <= 251
  {
    && |after| == CountFrom(before, if up then 1 else 2)
    && (forall i :: 0 <= i < |after| ==> after[i].freq > 0 && SomeHalf(after[i], before, k, up))
    && forall j: nat :: j < |before| && before[j].freq >= (if up then 1 else 2) ==>
         HasHalf(RaisedAt(before, k, j), after, up)
  }

  lemma HalveIsHalf(s: State, bump: nat)
    requires bump <= 1
    ensures HalvedFrom(Halve(s, bump), s, bump == 1)
    ensures Halve(s, bump).freq > 0 <==> s.freq >= if bump == 1 then 1 else 2
  {}

  lemma {:induction false} SurvivorsLength(list: seq<State>)
    ensures |Survivors(list)| == CountFrom(list, 1)
  {
    if list != [] { SurvivorsLength(list[..|list| - 1]); }
  }

  lemma {:induction false} HalvesCounted(list: seq<State>, bump: nat)
    requires bump <= 1
    ensures CountFrom(HalveAll(list, bump), 1) == CountFrom(list, if bump == 1 then 1 else 2)
  {
    if list != [] {
      var n := |list| - 1;
      HalvesCounted(list[..n], bump);
      assert HalveAll(list, bump)[..n] == HalveAll(list[..n], bump);
      HalveIsHalf(list[n], bump);
    }
  }

  lemma {:induction false} CountUpdated(list: seq<State>, k: nat, s: State, least: nat)
    requires k < |list| && s.freq >= least && list[k].freq >= least
    ensures CountFrom(list[k := s], least) == CountFrom(list, least)
  {
    var n := |list| - 1;
    if k < n {
      CountUpdated(list[..n], k, s, least);
      assert list[k := s][..n] == list[..n][k := s];
    } else {
      assert list[k := s][..n] == list[..n];
    }
  }

  lemma {:induction false} SameCounts(a: seq<State>, b: seq<State>)
    requires forall s :: multiset(Survivors(a))[s] == multiset(Survivors(b))[s]
    ensures |Survivors(a)| == |Survivors(b)|
  {
    assert multiset(Survivors(a)) == multiset(Survivors(b));
    assert |multiset(Survivors(a))| == |multiset(Survivors(b))|;
  }

  /** What is left after rescaling are the halves of those states that are frequent enough. */
  lemma SurvivorsHalvedFairly(list: seq<State>, k: nat, bump: nat)
    requires k < |list| && bump <= 1 && MAX_FREQ < list[k].freq <= 128
    requires forall i :: 0 <= i < |list| && i != k ==> list[i].freq <= MAX_FREQ
    ensures HalvedFairly(list, k, bump == 1, Survivors(Rescaled(list, k, bump)))
  {
    hide SortStates;
    hide Survivors;
    hide HalveAll;
    hide Halve;
    hide HalvedFrom;
    var raised := Raise(list, k);
    var halved, r := HalveAll(raised, bump), Rescaled(list, k, bump);
    var up, survivors := bump == 1, Survivors(Rescaled(list, k, bump));
    SurvivorsAreTheHalved(list, k, bump);
    forall s ensures multiset(survivors)[s] == multiset(Survivors(halved))[s] { SurvivorsCount(halved, s); }
    SameCounts(r, halved);
    SurvivorsLength(halved);
    HalvesCounted(raised, bump);
    CountUpdated(list, k, raised[k], if up then 1 else 2);
    forall i | 0 <= i < |survivors| ensures survivors[i].freq > 0 && SomeHalf(survivors[i], list, k, up) {
      HalfOfSome(list, k, bump, survivors[i], survivors);
    }
    forall j: nat | j < |list| && list[j].freq >= (if up then 1 else 2)
      ensures HasHalf(RaisedAt(list, k, j), survivors, up) {
      HalfIsThere(list, k, bump, j, survivors);
    }
  }

  lemma HalfOfSome(list: seq<State>, k: nat, bump: nat, h: State, survivors: seq<State>)
    requires k < |list| && bump <= 1 && list[k].freq <= 128 && h in survivors
    requires forall s :: multiset(survivors)[s] == if s.freq > 0 then multiset(HalveAll(Raise(list, k), bump))[s] else 0
    ensures h.freq > 0 && SomeHalf(h, list, k, bump == 1)
  {
    hide HalveAll;
    hide HalvedFrom;
    hide Halve;
    var raised := Raise(list, k);
    var halved := HalveAll(raised, bump);
    assert h in multiset(survivors);
    assert h in multiset(halved);
    var j: nat :| j < |halved| && halved[j] == h;
    HalveIsHalf(raised[j], bump);
    assert raised[j] == RaisedAt(list, k, j);
  }

  lemma HalfIsThere(list: seq<State>, k: nat, bump: nat, j: nat, survivors: seq<State>)
    requires k < |list| && bump <= 1 && list[k].freq <= 128
    requires j < |list| && list[j].freq >= if bump == 1 then 1 else 2
    requires forall s :: multiset(survivors)[s] == if s.freq > 0 then multiset(HalveAll(Raise(list, k), bump))[s] else 0
    ensures HasHalf(RaisedAt(list, k, j), survivors, bump == 1)
  {
    hide HalveAll;
    hide HalvedFrom;
    hide Halve;
    var raised := Raise(list, k);
    var halved := HalveAll(raised, bump);
    HalveIsHalf(raised[j], bump);
    assert halved[j] in multiset(halved);
    assert halved[j] in multiset(survivors);
    var i: nat :| i < |survivors| && survivors[i] == halved[j];
    assert HalvedFrom(survivors[i], raised[j], bump == 1) && raised[j] == RaisedAt(list, k, j);
  }

  // Equal frequencies keep their order.

  /** The states of one frequency, in order. */
  function OfFreq(list: seq<State>, f: nat): seq<State> {
    if list == [] then []
    else OfFreq(list[..|list| - 1], f) + if list[|list| - 1].freq == f then [list[|list| - 1]] else []
  }

  lemma {:induction false} OfFreqJoin(a: seq<State>, b: seq<State>, f: nat)
    ensures OfFreq(a + b, f) == OfFreq(a, f) + OfFreq(b, f)
  {
    if b == [] {
      assert a + b == a;
    } else {
      var n := |b| - 1;
      assert (a + b)[..|a| + n] == a + b[..n];
      OfFreqJoin(a, b[..n], f);
    }
  }

  lemma {:induction false} OfFreqNone(list: seq<State>, f: nat)
    requires forall i :: 0 <= i < |list| ==> list[i].freq != f
    ensures OfFreq(list, f) == []
  {
    if list != [] { OfFreqNone(list[..|list| - 1], f); }
  }

  lemma OfFreqOne(t: State, f: nat)
    ensures OfFreq([t], f) == if t.freq == f then [t] else []
  {
    assert [t][..0] == [];
  }

  lemma InsertStable(sorted: seq<State>, t: State, f: nat)
    requires Falling(sorted)
    ensures OfFreq(Insert(sorted, t), f) == OfFreq(sorted, f) + if t.freq == f then [t] else []
  {
    hide OfFreq;
    hide Falling;
    hide InsertPos;
    var p := InsertPos(sorted, t);
    InsertPosSplits(sorted, t);
    OfFreqJoin(sorted[..p], [t], f);
    OfFreqJoin(sorted[..p] + [t], sorted[p..], f);
    OfFreqJoin(sorted[..p], sorted[p..], f);
    OfFreqOne(t, f);
    assert sorted == sorted[..p] + sorted[p..];
    if t.freq == f { OfFreqNone(sorted[p..], f); }
  }

  /** Sorting keeps states of equal frequency in the order they had. */
  lemma {:induction false} SortStable(list: seq<State>, f: nat)
    ensures OfFreq(SortStates(list), f) == OfFreq(list, f)
  {
    hide Insert;
    hide Falling;
    if list != [] {
      var n := |list| - 1;
      SortStable(list[..n], f);
      SortStatesSorts(list[..n]);
      InsertStable(SortStates(list[..n]), list[n], f);
    }
  }

  // A state that is left alone.

  /** Halving and rounding up twice is dividing and rounding up once. */
  lemma HalvedTwice(f: nat, f': nat, r: nat, p: nat)
    requires f' == f - f / 2 && r * p - p < f' <= r * p
    ensures r * (2 * p) - 2 * p < f <= r * (2 * p)
  {
    assert r * (2 * p) == 2 * (r * p);
  }

  /** Its frequency is divided by the highest power of 2 in the escape count, and at least by 2, and rounded up. */
  lemma {:induction false} DecayDivides(f: byte, escape: nat, n: nat)
    requires n >= 1 && if escape < 2 then n == 1 else Pow2(n) <= escape < Pow2(n + 1)
    ensures Decay(f, escape) * Pow2(n) - Pow2(n) < f <= Decay(f, escape) * Pow2(n)
    decreases escape
  {
    hide Pow2;
    PowerStep(n);
    PowerStep(n - 1);
    PowerStep(0);
    var f' := f - f / 2;
    if escape / 2 <= 1 {
      if n >= 2 {
        PowerStep(n - 2);
        assert false;
      }
    } else {
      if n == 1 { assert false; }
      DecayDivides(f', escape / 2, n - 1);
      HalvedTwice(f, f', Decay(f, escape), Pow2(n - 1));
    }
  }

  lemma PowerStep(n: nat)
    ensures Pow2(n + 1) == 2 * Pow2(n) && Pow2(0) == 1 && Pow2(n) >= 1
  {}

  /** The same of a whole context; a state that is left alone also decays, the more the larger the share of the escape
      symbol was. Of several the new sum is that of their frequencies and half that share, rounded up, the share having
      grown by one for each state that was dropped. */
  ghost predicate RescaledFairly(v: Context, k: nat, up: bool, after: Context)
    requires k < |v.list| && v.list[k].freq <= 251
  {
    && after.suffix == v.suffix
    && if |after.list| == 1 then
         && CountFrom(v.list, if up then 1 else 2) == 1
         && exists h: State :: HalvedFrom(h, RaisedAt(v.list, k, k), up)
              && after.list[0]
                == State(h.sym, Decay(h.freq, Wrap16(v.summFreq - SumFreq(v.list) + |v.list| - 1)), h.succ)
       else
         && HalvedFairly(v.list, k, up, after.list)
         && var escape := Wrap16(v.summFreq - SumFreq(v.list) + |v.list| - |after.list|);
         after.summFreq == Wrap16(SumFreq(after.list) + escape - escape / 2)
  }

  lemma ContextHalvedFairly(v: Context, k: nat, bump: nat)
    requires 2 <= |v.list| && k < |v.list| && bump <= 1 && MAX_FREQ < v.list[k].freq <= 128 && v.summFreq < TWO_16
    requires forall i :: 0 <= i < |v.list| && i != k ==> v.list[i].freq <= MAX_FREQ
    ensures RescaledFairly(v, k, bump == 1, RescaledContext(v, k, bump))
  {
    hide Rescaled;
    hide Survivors;
    hide SumFreq;
    hide CountFrom;
    hide Decay;
    hide HalvedFairly;
    hide HalvedFrom;
    hide Wrap16;
    SurvivorSum(v.list, k, bump);
    SurvivorsHalvedFairly(v.list, k, bump);
    FairlyCounted(v.list, k, bump == 1, Survivors(Rescaled(v.list, k, bump)));
    FirstSurvivor(v.list, k, bump);
  }

  lemma FairlyCounted(before: seq<State>, k: nat, up: bool, after: seq<State>)
    requires k < |before| && before[k].freq <= 251 && HalvedFairly(before, k, up, after)
    ensures |after| == CountFrom(before, if up then 1 else 2)
  {}

  /** The chosen state is the first that is left. */
  lemma FirstSurvivor(list: seq<State>, k: nat, bump: nat)
    requires k < |list| && bump <= 1 && MAX_FREQ < list[k].freq <= 128
    requires forall i :: 0 <= i < |list| && i != k ==> list[i].freq <= MAX_FREQ
    ensures var survivors := Survivors(Rescaled(list, k, bump));
      survivors != [] && HalvedFrom(survivors[0], RaisedAt(list, k, k), bump == 1)
  {
    hide SortStates;
    hide Survivors;
    hide HalveAll;
    hide SumFreq;
    hide Falling;
    hide HalvedFrom;
    RescaledFirst(list, k, bump);
    SurvivorsFirst(Rescaled(list, k, bump));
    assert Survivors(Rescaled(list, k, bump))[0] == Rescaled(list, k, bump)[0];
    HalveIsHalf(RaisedAt(list, k, k), bump);
  }
}

/** The part of the PPM model that rewrites a context in place: rescaling its frequencies. */
module PpmModel {
  import opened Machine
  import opened SizeClasses
  import opened FreeLists
  import opened SubAllocators
  import C = Contexts
  import opened Rescaling

  class Model {
    const a: SubAllocator
    var orderFall: int

    constructor (a: SubAllocator)
      ensures this.a == a && orderFall == 0
    {
      this.a := a;
      orderFall := 0;
    }

    function Bump(): nat
      reads this
    {
      if orderFall != 0 then 1 else 0
    }

    /** Every context but c says what it said. */
    twostate predicate OnlyChanged(c: int)
      reads a, a.states, a.freeList
    {
      && old(a.Sound()) && a.Sound() && a.contexts == old(a.contexts)
      && forall d :: d in a.contexts && d != c ==> a.Content(d) == old(a.Content(d))
    }

    /** Move state i of context c up to place j, and the states between one down. */
    method MoveUp(c: int, j: nat, i: nat)
      requires a.Sound() && c in a.contexts && j < i < |a.Content(c).list| && a.Unflagged(c)
      modifies a.states
      ensures OnlyChanged(c) && a.Unflagged(c)
      ensures var list := old(a.Content(c).list);
        a.Content(c) == old(a.Content(c)).(list := Moved(list, j, i))
    {
      hide Moved;
      hide Moving;
      hide SubAllocator.Sound;
      ghost var list := a.Content(c).list;
      MovingStart(list, i);
      var t := a.GetState(c, i);
      var m := i;
      while m > j
        invariant j <= m <= i && OnlyChanged(c) && a.Unflagged(c)
        invariant a.Content(c) == old(a.Content(c)).(list := Moving(list, m, i))
      {
        MovingStep(list, m, i);
        var s := a.GetState(c, m - 1);
        a.SetState(c, m, s);
        m := m - 1;
      }
      MovingEnd(list, j, i);
      a.SetState(c, j, t);
    }

    /** Halve state i of context c and move it up past the less frequent states before it. */
    method SettleState(c: int, i: nat, ghost raised: seq<State>) returns (before: byte, after: byte)
      requires a.Sound() && c in a.contexts && a.Unflagged(c) && i < |raised|
      requires a.Content(c).list == Partly(raised, Bump(), i) && raised[i].freq < 255
      modifies a.states
      ensures OnlyChanged(c) && a.Unflagged(c) && before == raised[i].freq && after == HalveFreq(before, Bump())
      ensures a.Content(c) == old(a.Content(c)).(list := Partly(raised, Bump(), i + 1))
    {
      hide SubAllocator.Sound;
      hide SubAllocator.Content;
      hide Partly;
      hide InsertPos;
      hide Moved;
      hide HalveAll;
      hide SortStates;
      ghost var sorted := SortStates(HalveAll(raised, Bump())[..i]);
      Round(raised, Bump(), i);
      var t := a.GetState(c, i);
      before := t.freq;
      var f: int := t.freq;
      if orderFall != 0 {
        f := f + 1;
      }
      after := f / 2;
      var h := State(t.sym, after, t.succ);
      a.SetState(c, i, h);
      ghost var list := a.Content(c).list;
      var j := i;
      assert sorted[..j] == sorted;
      while j > 0
        invariant 0 <= j <= i && InsertPos(sorted[..j], h) == InsertPos(sorted, h)
        modifies {}
      {
        InsertPosStep(sorted, j, h);
        assert list[j - 1] == list[..i][j - 1];
        var s := a.GetState(c, j - 1);
        if h.freq <= s.freq {
          break;
        }
        j := j - 1;
      }
      InsertPosStep(sorted, j, h);
      StayedMoved(list, i);
      if j < i {
        MoveUp(c, j, i);
      }
    }

    /** Halve and sort all states of context c, and count the frequencies before and after. */
    method SettleAll(c: int, from: uint16, ghost raised: seq<State>) returns (escFreq: uint16, summFreq: uint16)
      requires a.Sound() && c in a.contexts && a.Unflagged(c)
      requires a.Content(c).list == raised && |raised| <= 256 && forall i :: 0 <= i < |raised| ==> raised[i].freq <= 132
      modifies a.states
      ensures OnlyChanged(c) && a.Unflagged(c)
      ensures a.Content(c) == old(a.Content(c)).(list := SortStates(HalveAll(raised, Bump())))
      ensures escFreq == Wrap16(from - SumFreq(raised)) && summFreq == SumFreq(HalveAll(raised, Bump()))
    {
      hide SubAllocator.Sound;
      hide Partly;
      hide SortStates;
      hide SumFreq;
      hide HalveAll;
      hide Wrap16;
      ghost var halved := HalveAll(raised, Bump());
      Wrap16Small(from);
      PartlyEnds(raised, Bump());
      var n := a.ContextNumStates(c);
      escFreq, summFreq := from, 0;
      NoneSummed(raised, halved);
      for i := 0 to n
        invariant OnlyChanged(c) && a.Unflagged(c)
        invariant a.Content(c) == old(a.Content(c)).(list := Partly(raised, Bump(), i))
        invariant escFreq == Wrap16(from - SumFreq(raised[..i]))
        invariant summFreq == SumFreq(halved[..i]) <= 66 * i
      {
        var before, after := SettleState(c, i, raised);
        SumStep(raised, i);
        SumStep(halved, i);
        Wrap16Sub(from - SumFreq(raised[..i]), before);
        Wrap16Small(summFreq + after);
        escFreq := Wrap16(escFreq - before);
        summFreq := Wrap16(summFreq + after);
      }
      assert raised[..n] == raised && halved[..n] == halved;
    }

    /** The index of the last state of context c with a positive frequency, and escFreq raised once for each after
        it. */
    method CountDropped(c: int, escFreq0: uint16) returns (i: nat, escFreq: uint16)
      requires a.Sound() && c in a.contexts && Falling(a.Content(c).list) && |Survivors(a.Content(c).list)| > 0
      ensures i + 1 == |Survivors(a.Content(c).list)| <= |a.Content(c).list|
      ensures escFreq == Wrap16(escFreq0 + |a.Content(c).list| - (i + 1))
    {
      hide SubAllocator.Sound;
      hide Falling;
      hide Survivors;
      hide Wrap16;
      ghost var list := a.Content(c).list;
      SurvivorsFirst(list);
      var n := a.ContextNumStates(c);
      i := n - 1;
      escFreq := escFreq0;
      Wrap16Small(escFreq0);
      var s := a.GetState(c, i);
      while s.freq == 0
        invariant |Survivors(list)| <= i + 1 <= n && s == list[i]
        invariant escFreq == Wrap16(escFreq0 + n - (i + 1))
        decreases i
      {
        i := i - 1;
        Wrap16Add(escFreq0 + n - (i + 2), 1);
        escFreq := Wrap16(escFreq + 1);
        s := a.GetState(c, i);
      }
    }

    /** Let the frequency of the only state of context c run down with the escape count. */
    method DecayOnly(c: int, escFreq0: uint16)
      requires a.Sound() && c in a.contexts && |a.Content(c).list| == 1 && a.Unflagged(c)
        && a.Content(c).list[0].freq > 0
      modifies a.states
      ensures OnlyChanged(c)
      ensures var s := old(a.Content(c).list[0]);
        a.Content(c) == old(a.Content(c)).(list := [State(s.sym, Decay(s.freq, escFreq0), s.succ)])
    {
      hide SubAllocator.Sound;
      var s := a.GetState(c, 0);
      var f, escFreq := s.freq, escFreq0;
      f := f - f / 2;
      escFreq := escFreq / 2;
      while escFreq > 1
        invariant 0 < f < 256 && Decay(s.freq, escFreq0) == if escFreq <= 1 then f else Decay(f, escFreq)
        modifies {}
      {
        f := f - f / 2;
        escFreq := escFreq / 2;
      }
      a.SetState(c, 0, State(s.sym, f, s.succ));
    }

    /** Drop the states of context c that have frequency zero, and set its frequency sum. */
    method DropZeros(c: int, escFreq0: uint16, summFreq: uint16)
      requires a.Sound() && c in a.contexts && a.Unflagged(c) && 2 <= |a.Content(c).list|
      requires Falling(a.Content(c).list) && a.Content(c).list[0].freq > 0
      modifies a`size, a`stacks, a`slot, a`held, a`owner, a.freeList, a.states
      ensures OnlyChanged(c)
      ensures var v := old(a.Content(c));
        Survivors(v.list) != [] && |Survivors(v.list)| <= |v.list| && a.Content(c) == Finished(v, escFreq0, summFreq)
    {
      hide Shrunk;
      hide SubAllocator.Sound;
      hide SubAllocator.Content;
      hide Falling;
      hide Survivors;
      hide Wrap16;
      ghost var v := a.Content(c);
      SurvivorsFirst(v.list);
      var n := a.ContextNumStates(c);
      var i, escFreq := CountDropped(c, escFreq0);
      if i != n - 1 {
        a.ShrinkStates(c, i + 1);
      }
      assert a.Content(c).list == Survivors(v.list);
      if i == 0 {
        DecayOnly(c, escFreq);
        return;
      }
      a.ContextSetSummFreq(c, Wrap16(summFreq as int + escFreq - escFreq / 2));
    }

    /** Rescale context c when its state k has become too frequent; returns where that state is afterwards. */
    method Rescale(c: int, k: nat) returns (r: nat)
      requires a.Sound() && c in a.contexts && a.Unflagged(c)
      requires 2 <= |a.Content(c).list| && k < |a.Content(c).list| && a.Content(c).list[k].freq <= 128
      requires forall i :: 0 <= i < |a.Content(c).list| && i != k ==> a.Content(c).list[i].freq <= 124
      modifies a`size, a`stacks, a`slot, a`held, a`owner, a.freeList, a.states
      ensures OnlyChanged(c)
      ensures old(a.Content(c).list[k].freq) <= 124 ==> r == k && a.Content(c) == old(a.Content(c))
      ensures old(a.Content(c).list[k].freq) > 124 ==>
        RescaledFairly(old(a.Content(c)), k, orderFall != 0, a.Content(c))
      ensures old(a.Content(c).list[k].freq) > 124 ==>
        r == 0 && old(a.Content(c).summFreq) < TWO_16
        && a.Content(c) == RescaledContext(old(a.Content(c)), k, Bump())
    {
      hide SubAllocator.Sound;
      hide SubAllocator.Content;
      hide RescaledContext;
      hide Finished;
      hide SortStates;
      hide SumFreq;
      hide Survivors;
      hide Falling;
      hide Wrap16;
      hide HalveAll;
      hide Rescaled;
      hide RescaledFairly;
      r := k;
      ghost var v := a.Content(c);
      var s := a.GetState(c, k);
      if s.freq <= MAX_FREQ {
        return;
      }
      a.SetState(c, k, State(s.sym, s.freq + 4, s.succ));
      ghost var raised := Raise(v.list, k);
      RescaledFirst(v.list, k, Bump());
      var n := a.ContextNumStates(c);
      var escFreq := a.ContextSummFreq(c);
      var summFreq;
      escFreq, summFreq := SettleAll(c, Wrap16(escFreq as int + 4), raised);
      FinishedIsRescaled(v, k, Bump());
      DropZeros(c, escFreq, summFreq);
      ContextHalvedFairly(v, k, Bump());
      r := 0;
    }

    /** Start again with the one context of order zero, in which every byte has frequency 1. */
    method Restart() returns (c: int)
      requires a.Sound() && a.Floor() + 2 * MAX_UNITS + 2 <= a.states.Length
      modifies a, a.freeList, a.states
      ensures a.Sound() && a.contexts == {c}
      ensures a.Content(c) == C.Context(seq(256, i requires 0 <= i < 256 => State(i, 1, 0)), 0, 257)
    {
      hide SubAllocator.Sound;
      hide SubAllocator.Content;
      FirstContextFits();
      SoundIsValid();
      a.Restart();
      c := a.NewContextSize(256);
      a.ContextSetSummFreq(c, 257);
      ghost var v := a.Content(c);
      for i := 0 to 256
        invariant a.Sound() && a.contexts == {c} && |a.Content(c).list| == 256
        invariant a.Content(c) == v.(list := a.Content(c).list)
        invariant forall k :: 0 <= k < i ==> a.Content(c).list[k] == State(k, 1, 0)
      {
        a.SetState(c, i, State(i, 1, 0));
      }
      assert a.Content(c).list == seq(256, i requires 0 <= i < 256 => State(i, 1, 0));
    }

    lemma SoundIsValid()
      requires a.Sound()
      ensures a.Valid() && a.held == {}
    {}
  }

  lemma FirstContextFits()
    ensures Units(C.ListClass(256)) == MAX_UNITS
  {}
}

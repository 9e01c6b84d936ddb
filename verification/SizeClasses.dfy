/** The 39 block sizes of the PPM sub-allocator and the tables that index them. */
module SizeClasses {
  const CLASS_COUNT: nat := 39
  const MAX_UNITS: nat := 128

  /** Units in a block of class i: steps of 1, 2, 3 and then 4 units. Class 0 is the empty block. */
  function Units(i: nat): nat {
    if i <= 4 then i
    else if i <= 8 then 4 + 2 * (i - 4)
    else if i <= 12 then 12 + 3 * (i - 8)
    else 24 + 4 * (i - 12)
  }

  /** The class whose block holds u units with the least waste. */
  function ClassOf(u: nat): nat {
    if u <= 4 then u
    else if u <= 12 then 4 + (u - 3) / 2
    else if u <= 24 then 8 + (u - 10) / 3
    else 12 + (u - 21) / 4
  }

  lemma UnitsMonotone(i: nat, j: nat)
    requires i < j
    ensures Units(i) < Units(j)
  {}

  /** ClassOf picks the least sufficient class, and every class is the class of its own size. */
  lemma ClassOfIsLeast(u: nat)
    ensures Units(ClassOf(u)) >= u
    ensures forall i :: 0 <= i < ClassOf(u) ==> Units(i) < u
    ensures u <= MAX_UNITS ==> ClassOf(u) < CLASS_COUNT
  {
    if ClassOf(u) > 0 {
      forall i | 0 <= i < ClassOf(u) - 1 ensures Units(i) < Units(ClassOf(u) - 1) {
        UnitsMonotone(i, ClassOf(u) - 1);
      }
    }
  }

  lemma ClassInRange(u: nat)
    requires 1 <= u <= MAX_UNITS
    ensures 1 <= ClassOf(u) < CLASS_COUNT && u <= Units(ClassOf(u)) <= MAX_UNITS
  {}

  lemma LargestClass()
    ensures Units(CLASS_COUNT - 1) == MAX_UNITS
  {}

  /** A size between two classes splits into the class below it and at most three units more. */
  lemma SplitIsExact(u: nat)
    requires 1 <= u <= MAX_UNITS && Units(ClassOf(u)) != u
    ensures 2 <= ClassOf(u) < CLASS_COUNT
    ensures var lower := Units(ClassOf(u) - 1);
            1 <= lower && 1 <= u - lower <= 3 && Units(u - lower) == u - lower == ClassOf(u - lower)
  {}

  /** The loops that fill both tables compute Units and ClassOf. */
  method InitTables() returns (units2Index: array<int>, index2Units: array<int>)
    ensures units2Index.Length == MAX_UNITS + 1 && index2Units.Length == CLASS_COUNT
    ensures forall i :: 0 <= i < CLASS_COUNT ==> index2Units[i] == Units(i)
    ensures forall u :: 0 <= u <= MAX_UNITS ==> units2Index[u] == ClassOf(u)
  {
    units2Index := new int[129];
    index2Units := new int[39];
    var counts := [1, 4, 4, 4, (128 + 3 - 1 * 4 - 2 * 4 - 3 * 4) / 4];
    var firsts := [0, 1, 5, 9, 13, 39];
    var ii, iu, units := 0, 0, 0;
    for i := 0 to 5
      invariant ii == firsts[i]
      invariant ii == 0 ==> units == 0 && iu == 0
      invariant ii > 0 ==> units == Units(ii - 1) && iu == units + 1
      invariant forall k :: 0 <= k < ii ==> index2Units[k] == Units(k)
      invariant forall u :: 0 <= u < iu ==> units2Index[u] == ClassOf(u)
    {
      for j := 0 to counts[i]
        invariant ii == firsts[i] + j
        invariant ii == 0 ==> units == 0 && iu == 0
        invariant ii > 0 ==> units == Units(ii - 1) && iu == units + 1
        invariant forall k :: 0 <= k < ii ==> index2Units[k] == Units(k)
        invariant forall u :: 0 <= u < iu ==> units2Index[u] == ClassOf(u)
      {
        units := units + i;
        assert units == Units(ii);
        index2Units[ii] := units;
        while iu <= units
          invariant 0 <= iu <= units + 1 && ii < 39 && (ii > 0 ==> Units(ii - 1) < iu)
          invariant forall k :: 0 <= k <= ii ==> index2Units[k] == Units(k)
          invariant forall u :: 0 <= u < iu ==> units2Index[u] == ClassOf(u)
        {
          units2Index[iu] := ii;
          iu := iu + 1;
        }
        ii := ii + 1;
      }
    }
  }

  /** The size of the first block that u free units are cut into: the largest listed size that fits. */
  function FirstPiece(u: nat): nat {
    if u > MAX_UNITS then MAX_UNITS
    else if Units(ClassOf(u)) == u then u
    else if ClassOf(u) > 0 then Units(ClassOf(u) - 1)
    else 0
  }

  lemma FirstPieceIsLargest(u: nat)
    requires u >= 1
    ensures exists i :: 0 <= i < CLASS_COUNT && FirstPiece(u) == Units(i)
    ensures FirstPiece(u) <= u && forall i :: 0 <= i < CLASS_COUNT && Units(i) <= u ==> Units(i) <= FirstPiece(u)
  {
    var c := ClassOf(u);
    if u > MAX_UNITS {
      assert FirstPiece(u) == Units(CLASS_COUNT - 1);
    } else if Units(c) == u {
      assert FirstPiece(u) == Units(c) && c < CLASS_COUNT;
    } else {
      assert FirstPiece(u) == Units(c - 1);
    }
  }
}

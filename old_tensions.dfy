/**
 * `computeLineTensions` of src/NLGraph-old.js (1450-1486): the curve tension of each of n
 * parallel links, in steps of 0.4, the positive value of each magnitude first. It is the
 * mirror image of the slot table of the later engine, scaled by the step.
 */
module OldTensions {
  import opened Positions

  /** `dr`, the step between the tensions of neighbouring links. */
  const TensionStep: real := 0.4

  /** The multiple of the step that entry `i` of the table holds. */
  function TensionSlot(n: nat, i: int): int
  {
    if n % 2 == 0 then -EvenSlot(i) else -OddSlot(i)
  }

  /**
   * The table `computeLineTensions(n)`: [0] for one link, [0.4, -0.4, 0.8, -0.8, ...] for an
   * even count (zero links fall into this branch and give [0.4, -0.4]), and
   * [0, 0.4, -0.4, 0.8, -0.8, ...] for an odd count.
   */
  function LineTensions(n: nat): seq<real>
  {
    if n == 1 then [0.0]
    else if n % 2 == 0 then seq(if n == 0 then 2 else n, i => (-EvenSlot(i)) as real * TensionStep)
    else seq(n, i => (-OddSlot(i)) as real * TensionStep)
  }

  /** The loop of `computeLineTensions`. */
  method ComputeLineTensions(totalNum: nat) returns (r: seq<real>)
    ensures r == LineTensions(totalNum)
  {
    var dr := TensionStep;
    var t1 := [0.0];
    var t2 := [dr, -dr];
    if totalNum == 1 {
      return t1;
    } else if totalNum == 2 {
      return t2;
    } else if totalNum % 2 == 0 {
      var i := 1;
      // totalNum is even, so JavaScript's `totalNum / 2` is exact
      while i < totalNum / 2
        invariant 1 <= i <= (if totalNum == 0 then 1 else totalNum / 2)
        invariant t2 == seq(2 * i, k => (-EvenSlot(k)) as real * TensionStep)
      {
        t2 := t2 + [(i + 1) as real * dr, -((i + 1) as real * dr)];
        i := i + 1;
      }
      assert totalNum == 2 * (totalNum / 2) + totalNum % 2;
      assert 2 * i == (if totalNum == 0 then 2 else totalNum);
      return t2;
    } else {
      var j := 1;
      // totalNum is odd, so `Math.ceil(totalNum / 2)` is (totalNum + 1) / 2
      while j < (totalNum + 1) / 2
        invariant 1 <= j <= (totalNum + 1) / 2
        invariant t1 == seq(2 * j - 1, k => (-OddSlot(k)) as real * TensionStep)
      {
        t1 := t1 + [j as real * dr, -(j as real * dr)];
        j := j + 1;
      }
      return t1;
    }
  }

  /** Entry i is the negated slot of the later engine's table, times the step. */
  lemma LineTensionsAt(n: nat, i: nat)
    requires 1 <= n && i < n
    ensures |LineTensions(n)| == n && |LinePos(n)| == n
    ensures LineTensions(n)[i] == (-LinePos(n)[i]) as real * TensionStep
  {
    LinePosShape(n);
    if n > 1 && n % 2 == 0 {
      assert LinePos(n)[i] == EvenSlot(i);
    } else if n > 1 {
      assert LinePos(n)[i] == OddSlot(i);
    }
  }

  /**
   * For n >= 1 links: n entries, entry i is k times 0.4 with k the negated slot of the later
   * engine's table and |k| <= n/2.
   */
  lemma LineTensionsShape(n: nat)
    requires n >= 1
    ensures |LineTensions(n)| == n
    ensures forall i :: 0 <= i < n ==>
      && LineTensions(n)[i] == (-LinePos(n)[i]) as real * TensionStep
      && -(n / 2) <= -LinePos(n)[i] <= n / 2
  {
    LinePosShape(n);
    forall i | 0 <= i < n
      ensures LineTensions(n)[i] == (-LinePos(n)[i]) as real * TensionStep
    {
      LineTensionsAt(n, i);
    }
  }

  /** No two links get the same tension. */
  lemma LineTensionsDistinct(n: nat, i: nat, j: nat)
    requires 0 <= i < j < n
    ensures |LineTensions(n)| == n && LineTensions(n)[i] != LineTensions(n)[j]
  {
    LinePosShape(n);
    LineTensionsAt(n, i);
    LineTensionsAt(n, j);
    assert LinePos(n)[i] != LinePos(n)[j];
  }

  /** The table is closed under negation: the mirrored slot holds the negated tension. */
  lemma LineTensionsSymmetric(n: nat, i: nat)
    requires 0 <= i < n
    ensures |LineTensions(n)| == n && -LineTensions(n)[i] in LineTensions(n)
  {
    LinePosShape(n);
    var m := MirrorSlot(n, i);
    LineTensionsAt(n, i);
    LineTensionsAt(n, m);
    assert LineTensions(n)[m] == -LineTensions(n)[i];
  }

  /** The tension 0 is in the table exactly when the count is odd. */
  lemma LineTensionsZeroIffOdd(n: nat)
    requires n >= 1
    ensures 0.0 in LineTensions(n) <==> n % 2 == 1
  {
    LineTensionsShape(n);
    LinePosHasZeroIffOdd(n);
    var t, p := LineTensions(n), LinePos(n);
    if n % 2 == 1 {
      assert t[0] == 0.0;
    } else {
      forall i | 0 <= i < n
        ensures t[i] != 0.0
      {
        assert p[i] != 0;
      }
    }
  }

  /** Four links get 0.4, -0.4, 0.8, -0.8; three get 0, 0.4, -0.4. */
  lemma LineTensionsExamples()
    ensures LineTensions(4) == [0.4, -0.4, 0.8, -0.8]
    ensures LineTensions(3) == [0.0, 0.4, -0.4]
  {
    assert LineTensions(4)[2] == 0.8;
  }
}

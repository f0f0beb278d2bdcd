/**
 * The position tables of src/NLGraph.js: the signed slots of parallel links
 * (`computeLinePos`, 1783-1821) and the vertical offsets of wrapped node and link labels
 * (`computeTspanDy`, 1832-1846, and `computeEdgeLabelDy`, 1856-1879). Each is a loop filling a
 * fresh array; each is given here as a closed form and as the loop, proved equal.
 */
module Positions {

  /** Entry `i` of the table for an even number of links: -1, 1, -2, 2, ... */
  function EvenSlot(i: int): int
  {
    if i % 2 == 0 then -(i / 2 + 1) else i / 2 + 1
  }

  /** Entry `i` of the table for an odd number of links: 0, -1, 1, -2, 2, ... */
  function OddSlot(i: int): int
  {
    if i == 0 then 0 else if i % 2 == 1 then -((i + 1) / 2) else i / 2
  }

  /**
   * The table `computeLinePos(n)`: slot 0 for a single link, otherwise the negative value of
   * each magnitude first. Zero links fall into the even branch and give [-1, 1].
   */
  function LinePos(n: nat): seq<int>
  {
    if n == 1 then [0]
    else if n % 2 == 0 then seq(if n == 0 then 2 else n, i => EvenSlot(i))
    else seq(n, i => OddSlot(i))
  }

  /** The loop of `computeLinePos`, with `dr = -1`. */
  method ComputeLinePos(totalNum: nat) returns (r: seq<int>)
    ensures r == LinePos(totalNum)
  {
    var dr := -1;
    var t1 := [0];
    var t2 := [dr, -dr];
    if totalNum == 1 {
      return t1;
    } else if totalNum == 2 {
      return t2;
    } else if totalNum % 2 == 0 {
      var i := 1;
      // totalNum is even, so JavaScript's `totalNum / 2` is exact
      while i < totalNum / 2
        invariant 1 <= i <= (if totalNum == 0 then 1 else totalNum / 2)
        invariant t2 == seq(2 * i, k => EvenSlot(k))
      {
        t2 := t2 + [(i + 1) * dr, -(i + 1) * dr];
        i := i + 1;
      }
      assert totalNum == 2 * (totalNum / 2) + totalNum % 2;
      assert 2 * i == (if totalNum == 0 then 2 else totalNum);
      return t2;
    } else {
      var j := 1;
      // totalNum is odd, so `Math.ceil(totalNum / 2)` is (totalNum + 1) / 2
      while j < (totalNum + 1) / 2
        invariant 1 <= j <= (totalNum + 1) / 2
        invariant t1 == seq(2 * j - 1, k => OddSlot(k))
      {
        t1 := t1 + [j * dr, -j * dr];
        j := j + 1;
      }
      return t1;
    }
  }

  /** The slot of the link that mirrors slot `i` across the central line. */
  function MirrorSlot(n: nat, i: nat): nat
  {
    if n % 2 == 0 then (if i % 2 == 0 then i + 1 else i - 1)
    else if i == 0 then 0
    else if i % 2 == 1 then i + 1 else i - 1
  }

  /**
   * For n >= 1 links the table has n pairwise distinct entries, each at most n/2 away from the
   * central line, and mirroring a slot negates it.
   */
  lemma LinePosShape(n: nat)
    requires n >= 1
    ensures |LinePos(n)| == n
    ensures forall i :: 0 <= i < n ==> -(n / 2) <= LinePos(n)[i] <= n / 2
    ensures forall i, j :: 0 <= i < j < n ==> LinePos(n)[i] != LinePos(n)[j]
    ensures forall i :: 0 <= i < n ==> MirrorSlot(n, i) < n && LinePos(n)[MirrorSlot(n, i)] == -LinePos(n)[i]
  {
    var r := LinePos(n);
    forall i, j | 0 <= i < j < n
      ensures r[i] != r[j]
    {
      if n % 2 == 0 {
        assert r[i] == EvenSlot(i) && r[j] == EvenSlot(j);
      } else if n > 1 {
        assert r[i] == OddSlot(i) && r[j] == OddSlot(j);
      }
    }
  }

  /** The table is closed under negation. */
  lemma LinePosSymmetric(n: nat, i: nat)
    requires 1 <= n && i < n
    ensures -LinePos(n)[i] in LinePos(n)
  {
    LinePosShape(n);
    assert LinePos(n)[MirrorSlot(n, i)] == -LinePos(n)[i];
  }

  /** The central slot 0 is taken exactly when the number of links is odd, and then by the first entry. */
  lemma LinePosHasZeroIffOdd(n: nat)
    requires n >= 1
    ensures 0 in LinePos(n) <==> n % 2 == 1
    ensures n % 2 == 1 ==> LinePos(n)[0] == 0
    ensures n % 2 == 0 ==> LinePos(n)[0] == -1 && LinePos(n)[1] == 1
  {
    if n % 2 == 0 {
      forall i | 0 <= i < n
        ensures LinePos(n)[i] != 0
      {
        assert LinePos(n)[i] == EvenSlot(i);
      }
    } else {
      assert LinePos(n)[0] == 0;
    }
  }

  /** The first dy of `computeTspanDy`: centred on `baseDy` for an odd count. */
  function TspanLowerBound(baseDy: real, lineHeight: real, tspanNo: nat): real
  {
    if tspanNo % 2 != 0 then baseDy - (tspanNo / 2) as real * lineHeight
    else -(baseDy + ((tspanNo as real) / 2.0 - 1.0) * lineHeight)
  }

  /** The dy of each `<tspan>` line of a node label. */
  function TspanDy(baseDy: real, lineHeight: real, tspanNo: nat): seq<real>
  {
    seq(tspanNo, i => TspanLowerBound(baseDy, lineHeight, tspanNo) + (i as real) * lineHeight)
  }

  method ComputeTspanDy(baseDy: real, lineHeight: real, tspanNo: nat) returns (dyArray: seq<real>)
    ensures dyArray == TspanDy(baseDy, lineHeight, tspanNo)
  {
    var lowerBound: real;
    if tspanNo % 2 != 0 {
      lowerBound := baseDy - (tspanNo / 2) as real * lineHeight;
    } else {
      lowerBound := -(baseDy + ((tspanNo as real) / 2.0 - 1.0) * lineHeight);
    }
    dyArray := [];
    var i := 0;
    while i < tspanNo
      invariant 0 <= i <= tspanNo && |dyArray| == i
      invariant forall k :: 0 <= k < i ==> dyArray[k] == lowerBound + (k as real) * lineHeight
    {
      dyArray := dyArray + [lowerBound + (i as real) * lineHeight];
      i := i + 1;
    }
    assert lowerBound == TspanLowerBound(baseDy, lineHeight, tspanNo);
    assert forall k :: 0 <= k < tspanNo ==> dyArray[k] == TspanDy(baseDy, lineHeight, tspanNo)[k];
  }

  /**
   * Label lines are spaced one line height apart; an odd number of lines has its middle line at
   * `baseDy`, while an even number has its two middle lines at `-baseDy` and `lineHeight - baseDy`.
   */
  lemma TspanDyLayout(baseDy: real, lineHeight: real, n: nat)
    ensures |TspanDy(baseDy, lineHeight, n)| == n
    ensures forall i :: 0 <= i < n - 1 ==>
      TspanDy(baseDy, lineHeight, n)[i + 1] - TspanDy(baseDy, lineHeight, n)[i] == lineHeight
    ensures n % 2 == 1 ==> TspanDy(baseDy, lineHeight, n)[n / 2] == baseDy
    ensures n % 2 == 0 && n > 0 ==>
      && TspanDy(baseDy, lineHeight, n)[n / 2 - 1] == -baseDy
      && TspanDy(baseDy, lineHeight, n)[n / 2] == lineHeight - baseDy
  {
    var r := TspanDy(baseDy, lineHeight, n);
    if n % 2 == 0 && n > 0 {
      var h := n / 2;
      assert (n as real) / 2.0 == h as real;
      assert r[h - 1] + r[h] == 2.0 * TspanLowerBound(baseDy, lineHeight, n) + ((2 * h - 1) as real) * lineHeight;
    }
  }

  function Abs(x: real): real
  {
    if x < 0.0 then -x else x
  }

  /** Entry `i` of `computeEdgeLabelDy`: even entries go up from `upDy`, odd ones down from `downDy`. */
  function EdgeLabelDyAt(baseDy: real, lineHeight: real, i: int): real
  {
    if i % 2 == 0 then -((i / 2) as real * lineHeight + Abs(baseDy))
    else (i / 2) as real * lineHeight + (lineHeight + baseDy)
  }

  function EdgeLabelDy(baseDy: real, lineHeight: real, totalNum: nat): seq<real>
  {
    seq(totalNum, i => EdgeLabelDyAt(baseDy, lineHeight, i))
  }

  method ComputeEdgeLabelDy(baseDy: real, lineHeight: real, totalNum: nat) returns (dyAry: seq<real>)
    ensures dyAry == EdgeLabelDy(baseDy, lineHeight, totalNum)
  {
    var upDy, downDy := baseDy, lineHeight + baseDy;
    dyAry := [];
    var i := 0;
    while i < totalNum
      invariant 0 <= i <= totalNum && |dyAry| == i
      invariant forall k :: 0 <= k < i ==> dyAry[k] == EdgeLabelDyAt(baseDy, lineHeight, k)
    {
      var dy := if i % 2 == 0 then -((i / 2) as real * lineHeight + Abs(upDy))
                else (i / 2) as real * lineHeight + downDy;
      assert dy == EdgeLabelDyAt(baseDy, lineHeight, i);
      dyAry := dyAry + [dy];
      i := i + 1;
    }
  }

  /** `LABEL_LINE_HEIGHT` of src/global.js, in em. */
  const LabelLineHeight: real := 1.0

  /**
   * The edge labels of `linkDrawing_` use base -0.2em and the label line height: line i of n
   * sits at -0.2 plus `LabelLineOffset(i)` em, so the lines are 1em apart around -0.2.
   */
  lemma EdgeLabelDyOfLinks(n: nat)
    ensures |EdgeLabelDy(-0.2, LabelLineHeight, n)| == n
    ensures forall i :: 0 <= i < n ==> EdgeLabelDy(-0.2, LabelLineHeight, n)[i] == -0.2 + LabelLineOffset(i) as real
  {
    EdgeLabelDyLayout(-0.2, LabelLineHeight, n);
  }

  /** How many line heights entry `i` lies from `baseDy`: 0, 1, -1, 2, -2, ... */
  function LabelLineOffset(i: nat): int
  {
    if i % 2 == 0 then -(i / 2) else i / 2 + 1
  }

  /**
   * With `baseDy <= 0` (the callers pass -0.2), entry i lies `LabelLineOffset(i)` line heights
   * from `baseDy`, and the offsets of n lines are exactly the integers -(n-1)/2 .. n/2, so that
   * sorted they form a run of lines one line height apart.
   */
  lemma EdgeLabelDyLayout(baseDy: real, lineHeight: real, n: nat)
    requires baseDy <= 0.0
    ensures forall i :: 0 <= i < n ==>
      EdgeLabelDy(baseDy, lineHeight, n)[i] == baseDy + (LabelLineOffset(i) as real) * lineHeight
    ensures forall i, j :: 0 <= i < j < n ==> LabelLineOffset(i) != LabelLineOffset(j)
    ensures forall i :: 0 <= i < n ==> -((n - 1) / 2) <= LabelLineOffset(i) <= n / 2
    ensures forall m :: -((n - 1) / 2) <= m <= n / 2 && n > 0 ==>
      (if m <= 0 then -2 * m else 2 * m - 1) < n && LabelLineOffset(if m <= 0 then -2 * m else 2 * m - 1) == m
  {
    forall i | 0 <= i < n
      ensures EdgeLabelDy(baseDy, lineHeight, n)[i] == baseDy + (LabelLineOffset(i) as real) * lineHeight
    {
      EdgeLabelDyAtOffset(baseDy, lineHeight, i);
    }
  }

  /** Entry `i` lies `LabelLineOffset(i)` line heights from a non-positive `baseDy`. */
  lemma EdgeLabelDyAtOffset(baseDy: real, lineHeight: real, i: nat)
    requires baseDy <= 0.0
    ensures EdgeLabelDyAt(baseDy, lineHeight, i) == baseDy + (LabelLineOffset(i) as real) * lineHeight
  {
    var h := i / 2;
    if i % 2 == 0 {
      assert (-h) as real * lineHeight == -(h as real * lineHeight);
    } else {
      assert (h + 1) as real * lineHeight == h as real * lineHeight + lineHeight;
    }
  }
}

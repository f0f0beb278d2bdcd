/**
 * The helpers of src/util.js over a JSON-like value: shallow object equality (`objectEquals`),
 * the recursive copy (`deepCopyArrayBoundData`) and the point dividing a segment in a ratio
 * (`getCoordFromLineWithRatio`).
 */
module Util {

  /**
   * A JavaScript value as the helpers see it. An object is the list of its own properties in
   * enumeration order; an object built by JavaScript never holds the same key twice.
   */
  datatype Json =
    | JUndefined
    | JNull
    | JBool(b: bool)
    | JNum(n: real)
    | JStr(s: string)
    | JArr(items: seq<Json>)
    | JObj(props: seq<(string, Json)>)

  type Props = seq<(string, Json)>

  /** The own keys of an object. */
  function Keys(p: Props): set<string>
  {
    if p == [] then {} else {p[0].0} + Keys(p[1..])
  }

  /** `obj[k]`: the value of own property k, or undefined when there is none. */
  function Lookup(p: Props, k: string): Json
  {
    if p == [] then JUndefined else if p[0].0 == k then p[0].1 else Lookup(p[1..], k)
  }

  predicate DistinctKeys(p: Props)
  {
    forall i, j :: 0 <= i < j < |p| ==> p[i].0 != p[j].0
  }

  predicate IsNullish(v: Json)
  {
    v.JUndefined? || v.JNull?
  }

  /**
   * JavaScript's `==`: null and undefined are equal to each other and to nothing else, values of
   * the same primitive kind compare by value. Arrays and objects compare by identity in
   * JavaScript; a value model has no identity, so they compare by structure here.
   */
  predicate LooseEq(a: Json, b: Json)
  {
    if IsNullish(a) || IsNullish(b) then IsNullish(a) && IsNullish(b) else a == b
  }

  lemma LooseEqSymmetric(a: Json, b: Json)
    ensures LooseEq(a, b) == LooseEq(b, a)
  {
  }

  /** The first loop of `objectEquals`: walk obj1's own keys, each must be own in obj2 with `obj1[i] == obj2[i]`. */
  function FirstLoop(obj1: Props, obj2: Props): bool
  {
    if obj1 == [] then true
    else if obj1[0].0 !in Keys(obj2) then false
    else if !LooseEq(obj1[0].1, Lookup(obj2, obj1[0].0)) then false
    else FirstLoop(obj1[1..], obj2)
  }

  /** The second loop of `objectEquals`: walk obj2's own keys, each must be own in obj1 with `obj1[i] == obj2[i]`. */
  function SecondLoop(obj1: Props, obj2: Props): bool
  {
    if obj2 == [] then true
    else if obj2[0].0 !in Keys(obj1) then false
    else if !LooseEq(Lookup(obj1, obj2[0].0), obj2[0].1) then false
    else SecondLoop(obj1, obj2[1..])
  }

  /** `objectEquals(obj1, obj2)`: both scans, the first mismatch answering false. */
  function ObjectEquals(obj1: Props, obj2: Props): bool
  {
    FirstLoop(obj1, obj2) && SecondLoop(obj1, obj2)
  }

  lemma {:induction false} SecondLoopIsFirstLoopSwapped(obj1: Props, obj2: Props)
    ensures SecondLoop(obj1, obj2) == FirstLoop(obj2, obj1)
    decreases |obj2|
  {
    if obj2 != [] {
      LooseEqSymmetric(Lookup(obj1, obj2[0].0), obj2[0].1);
      SecondLoopIsFirstLoopSwapped(obj1, obj2[1..]);
    }
  }

  /** `objectEquals` does not depend on the order of its arguments. */
  lemma ObjectEqualsSymmetric(a: Props, b: Props)
    ensures ObjectEquals(a, b) == ObjectEquals(b, a)
  {
    SecondLoopIsFirstLoopSwapped(a, b);
    SecondLoopIsFirstLoopSwapped(b, a);
  }

  lemma {:induction false} LookupOfHead(p: Props, k: string)
    requires DistinctKeys(p) && p != [] && k in Keys(p[1..])
    ensures k != p[0].0 && Lookup(p, k) == Lookup(p[1..], k)
    decreases |p|
  {
    if p[1..] != [] && k != p[1..][0].0 {
      assert DistinctKeys(p[1..][0..1] + p[1..][1..][..]) by {
        assert p[1..][0..1] + p[1..][1..] == p[1..];
      }
      assert k in Keys(p[1..][1..]);
      LookupOfHead([p[0]] + p[2..], k);
      assert ([p[0]] + p[2..])[1..] == p[2..];
    }
  }

  /** The first loop succeeds exactly when obj2 has every own key of obj1, holding a loosely equal value. */
  lemma {:induction false} FirstLoopMeaning(obj1: Props, obj2: Props)
    requires DistinctKeys(obj1)
    ensures FirstLoop(obj1, obj2) <==>
      Keys(obj1) <= Keys(obj2) && forall k :: k in Keys(obj1) ==> LooseEq(Lookup(obj1, k), Lookup(obj2, k))
    decreases |obj1|
  {
    if obj1 != [] {
      var rest := obj1[1..];
      assert DistinctKeys(rest);
      FirstLoopMeaning(rest, obj2);
      forall k | k in Keys(rest)
        ensures k != obj1[0].0 && Lookup(obj1, k) == Lookup(rest, k)
      {
        LookupOfHead(obj1, k);
      }
    }
  }

  /**
   * For objects as JavaScript builds them, `objectEquals` holds exactly when both have the same
   * own keys and loosely equal values at every key.
   */
  lemma ObjectEqualsMeaning(obj1: Props, obj2: Props)
    requires DistinctKeys(obj1) && DistinctKeys(obj2)
    ensures ObjectEquals(obj1, obj2) <==>
      Keys(obj1) == Keys(obj2) && forall k :: k in Keys(obj1) ==> LooseEq(Lookup(obj1, k), Lookup(obj2, k))
  {
    FirstLoopMeaning(obj1, obj2);
    FirstLoopMeaning(obj2, obj1);
    SecondLoopIsFirstLoopSwapped(obj1, obj2);
    if Keys(obj1) == Keys(obj2) {
      forall k | k in Keys(obj1)
        ensures LooseEq(Lookup(obj1, k), Lookup(obj2, k)) == LooseEq(Lookup(obj2, k), Lookup(obj1, k))
      {
        LooseEqSymmetric(Lookup(obj1, k), Lookup(obj2, k));
      }
    }
  }

  /** An own key that only one side has makes `objectEquals` false. */
  lemma ObjectEqualsMissingKey(obj1: Props, obj2: Props, k: string)
    requires DistinctKeys(obj1) && DistinctKeys(obj2)
    requires (k in Keys(obj1)) != (k in Keys(obj2))
    ensures !ObjectEquals(obj1, obj2)
  {
    ObjectEqualsMeaning(obj1, obj2);
  }

  /** `deepCopyArrayBoundData`: null and non-objects are returned, arrays and objects copied element by element. */
  function DeepCopy(obj: Json): (copy: Json)
    ensures copy.JArr? <==> obj.JArr?
    ensures copy.JObj? <==> obj.JObj?
    ensures copy.JArr? ==> |copy.items| == |obj.items|
    ensures copy.JObj? ==> |copy.props| == |obj.props|
    decreases obj
  {
    match obj
    case JArr(items) =>
      JArr(seq(|items|, i requires 0 <= i < |items| => DeepCopy(items[i])))
    case JObj(props) =>
      JObj(seq(|props|, i requires 0 <= i < |props| => (props[i].0, DeepCopy(props[i].1))))
    case _ => obj
  }

  /** The copy is structurally equal to the original at every depth. */
  lemma {:induction false} DeepCopyIsStructurallyEqual(obj: Json)
    ensures DeepCopy(obj) == obj
    decreases obj
  {
    match obj
    case JArr(items) =>
      forall i | 0 <= i < |items|
        ensures DeepCopy(items[i]) == items[i]
      {
        DeepCopyIsStructurallyEqual(items[i]);
      }
      assert DeepCopy(obj).items == items;
    case JObj(props) =>
      forall i | 0 <= i < |props|
        ensures DeepCopy(props[i].1) == props[i].1
      {
        DeepCopyIsStructurallyEqual(props[i].1);
      }
      assert DeepCopy(obj).props == props;
    case _ =>
  }

  /** A copied object has the same own keys, each holding the copy of the original value, and passes `objectEquals`. */
  lemma DeepCopyOfObject(props: Props)
    requires DistinctKeys(props)
    ensures DeepCopy(JObj(props)).JObj?
    ensures Keys(DeepCopy(JObj(props)).props) == Keys(props)
    ensures forall k :: k in Keys(props) ==> Lookup(DeepCopy(JObj(props)).props, k) == DeepCopy(Lookup(props, k))
    ensures ObjectEquals(DeepCopy(JObj(props)).props, props)
  {
    DeepCopyIsStructurallyEqual(JObj(props));
    forall k | k in Keys(props)
      ensures DeepCopy(Lookup(props, k)) == Lookup(props, k)
    {
      DeepCopyIsStructurallyEqual(Lookup(props, k));
    }
    ObjectEqualsMeaning(props, props);
  }

  datatype Point = Point(x: real, y: real)

  /** `getCoordFromLineWithRatio`: [] outside 0..1, else the point at that ratio from src to tgt. */
  function CoordFromLineWithRatio(src: Point, tgt: Point, ratio: real): seq<real>
  {
    if ratio < 0.0 || ratio > 1.0 then []
    else [src.x + ratio * (tgt.x - src.x), src.y + ratio * (tgt.y - src.y)]
  }

  predicate Between(v: real, a: real, b: real)
  {
    (a <= v <= b) || (b <= v <= a)
  }

  lemma MulNonNegative(x: real, y: real)
    requires 0.0 <= x && 0.0 <= y
    ensures 0.0 <= x * y
  {
  }

  lemma RatioStaysBetween(a: real, b: real, ratio: real)
    requires 0.0 <= ratio <= 1.0
    ensures Between(a + ratio * (b - a), a, b)
  {
    var d := b - a;
    assert ratio * d + (1.0 - ratio) * d == d;
    if a <= b {
      MulNonNegative(ratio, d);
      MulNonNegative(1.0 - ratio, d);
    } else {
      MulNonNegative(ratio, -d);
      MulNonNegative(1.0 - ratio, -d);
      assert ratio * -d == -(ratio * d);
      assert (1.0 - ratio) * -d == -((1.0 - ratio) * d);
    }
  }

  /** No point outside the ratio range 0..1; src at 0, tgt at 1, and each coordinate in between otherwise. */
  lemma CoordFromLineWithRatioMeaning(src: Point, tgt: Point, ratio: real)
    ensures CoordFromLineWithRatio(src, tgt, ratio) == [] <==> ratio < 0.0 || ratio > 1.0
    ensures ratio == 0.0 ==> CoordFromLineWithRatio(src, tgt, ratio) == [src.x, src.y]
    ensures ratio == 1.0 ==> CoordFromLineWithRatio(src, tgt, ratio) == [tgt.x, tgt.y]
    ensures 0.0 <= ratio <= 1.0 ==>
      Between(CoordFromLineWithRatio(src, tgt, ratio)[0], src.x, tgt.x) &&
      Between(CoordFromLineWithRatio(src, tgt, ratio)[1], src.y, tgt.y)
  {
    if 0.0 <= ratio <= 1.0 {
      RatioStaysBetween(src.x, tgt.x, ratio);
      RatioStaysBetween(src.y, tgt.y, ratio);
    }
  }

  /** The elements of `s` in the opposite order, as `Array.prototype.reverse` leaves them. */
  function Reverse<T>(s: seq<T>): (r: seq<T>)
    ensures |r| == |s|
    ensures forall i :: 0 <= i < |s| ==> r[i] == s[|s| - 1 - i]
  {
    if s == [] then [] else Reverse(s[1..]) + [s[0]]
  }
}

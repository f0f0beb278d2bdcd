/**
 * The key strings of the graph engine of src/NLGraph.js: decimal rendering of registry
 * indices, the node key `idIndex-typeIndex` and the pair key `a_b`, with the facts that make
 * them unambiguous.
 */
module Keys {
  import opened Wrappers

  /** `nodeIdTypeConcChar_`, put between the id part and the type part of a node key. */
  const NodeSep: char := '-'
  /** `linkKeyConcChar_`, put between the parts of a pair key and of a link key. */
  const LinkSep: char := '_'
  /** What JavaScript's string concatenation writes for `undefined`. */
  const Undefined: string := "undefined"

  predicate IsDigit(c: char)
  {
    '0' <= c <= '9'
  }

  predicate IsDigits(s: string)
  {
    forall i :: 0 <= i < |s| ==> IsDigit(s[i])
  }

  function DigitChar(d: nat): (c: char)
    requires d < 10
    ensures IsDigit(c)
  {
    ('0' as int + d) as char
  }

  /** The decimal rendering JavaScript gives a non-negative integer in string concatenation. */
  function NatToString(n: nat): (s: string)
    ensures |s| >= 1 && IsDigits(s)
    decreases n
  {
    if n < 10 then [DigitChar(n)] else NatToString(n / 10) + [DigitChar(n % 10)]
  }

  /** Reads a string of decimal digits back as a number. */
  function DigitsValue(s: string): nat
    requires IsDigits(s)
  {
    if s == [] then 0 else DigitsValue(s[..|s| - 1]) * 10 + (s[|s| - 1] as int - '0' as int)
  }

  lemma {:induction false} DigitsValueOfNatToString(n: nat)
    ensures DigitsValue(NatToString(n)) == n
    decreases n
  {
    var s := NatToString(n);
    if n >= 10 {
      DigitsValueOfNatToString(n / 10);
      assert s[..|s| - 1] == NatToString(n / 10);
    }
  }

  /** Distinct indices render as distinct strings. */
  lemma NatToStringInjective(m: nat, n: nat)
    ensures NatToString(m) == NatToString(n) <==> m == n
  {
    if NatToString(m) == NatToString(n) {
      DigitsValueOfNatToString(m);
      DigitsValueOfNatToString(n);
    }
  }

  /** One part of a node key: a registry index, or "undefined" when the id or type is unregistered. */
  function KeyPart(index: Option<nat>): (s: string)
    ensures NodeSep !in s && LinkSep !in s
  {
    match index
    case Some(n) => NatToString(n)
    case None => Undefined
  }

  lemma KeyPartInjective(a: Option<nat>, b: Option<nat>)
    ensures KeyPart(a) == KeyPart(b) <==> a == b
  {
    if a.Some? && b.Some? {
      NatToStringInjective(a.value, b.value);
    } else if a.Some? && b.None? {
      assert !IsDigit(KeyPart(b)[0]);
    } else if a.None? && b.Some? {
      assert !IsDigit(KeyPart(a)[0]);
    }
  }

  /** In `x + sep + y` with no `sep` in `x`, the first `sep` stands right after `x`. */
  lemma FirstSeparator(sep: char, x: string, y: string)
    requires sep !in x
    ensures var w := x + [sep] + y; w[|x|] == sep && forall i :: 0 <= i < |x| ==> w[i] != sep
  {
  }

  /** `x + sep + y` splits back into `x` and `y` when `x` holds no `sep`. */
  lemma SplitAtFirst(sep: char, x: string, y: string, u: string, v: string)
    requires sep !in x && sep !in u
    requires x + [sep] + y == u + [sep] + v
    ensures x == u && y == v
  {
    FirstSeparator(sep, x, y);
    FirstSeparator(sep, u, v);
    assert |x| == |u|;
    var w := x + [sep] + y;
    assert x == w[..|x|] == u;
    assert y == w[|x| + 1..] == v;
  }

  /** `idIndex-typeIndex`: the key readData_ gives a node (src/NLGraph.js:763). */
  function NodeKey(idIndex: Option<nat>, typeIndex: Option<nat>): (k: string)
    ensures LinkSep !in k
  {
    KeyPart(idIndex) + [NodeSep] + KeyPart(typeIndex)
  }

  /** Node keys are equal exactly when both of their index parts are. */
  lemma NodeKeyInjective(a: Option<nat>, b: Option<nat>, c: Option<nat>, d: Option<nat>)
    ensures NodeKey(a, b) == NodeKey(c, d) <==> a == c && b == d
  {
    if NodeKey(a, b) == NodeKey(c, d) {
      SplitAtFirst(NodeSep, KeyPart(a), KeyPart(b), KeyPart(c), KeyPart(d));
      KeyPartInjective(a, c);
      KeyPartInjective(b, d);
    }
  }

  /** A node key is never the bare word "undefined". */
  lemma NodeKeyIsNotUndefined(a: Option<nat>, b: Option<nat>)
    ensures NodeKey(a, b) != Undefined
  {
    var k := NodeKey(a, b);
    assert k[|KeyPart(a)|] == NodeSep;
    assert NodeSep !in Undefined;
  }

  /** `a_b`: the key of an ordered pair of node keys. */
  function PairKey(a: string, b: string): string
  {
    a + [LinkSep] + b
  }

  /** Pair keys of underscore-free node keys are unambiguous. */
  lemma PairKeyInjective(a: string, b: string, c: string, d: string)
    requires LinkSep !in a && LinkSep !in c
    ensures PairKey(a, b) == PairKey(c, d) <==> a == c && b == d
  {
    if PairKey(a, b) == PairKey(c, d) {
      SplitAtFirst(LinkSep, a, b, c, d);
    }
  }

  /** A three-part key `a_b_c` reads the same grouped either way. */
  lemma PairKeyAssoc(a: string, b: string, c: string)
    ensures PairKey(PairKey(a, b), c) == PairKey(a, PairKey(b, c))
  {
  }
}

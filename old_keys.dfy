/**
 * The key strings of the earlier graph engine of src/NLGraph-old.js: a node or endpoint is keyed
 * by its plain `id + "-" + type` (632, 651-652), a pair by `a_b`, and a pair key is turned round
 * by splitting it at every `_`, reversing the parts and joining them again (692).
 */
module OldKeys {
  import opened Wrappers
  import opened Util
  import opened Keys
  import opened GraphData

  /** A name with no `_` in it, once turned into a property name. */
  predicate CleanName(v: Option<string>)
  {
    LinkSep !in PropName(v)
  }

  /** `id + "-" + type`, with undefined written "undefined". */
  function OldKey(id: Option<string>, nodeType: Option<string>): (k: string)
    ensures CleanName(id) && CleanName(nodeType) <==> LinkSep !in k
  {
    var k := PropName(id) + [NodeSep] + PropName(nodeType);
    assert forall c :: c in k <==> c in PropName(id) || c == NodeSep || c in PropName(nodeType);
    k
  }

  /** `s.split("_")`: the pieces between the underscores, empty pieces included. */
  function Split(s: string): (parts: seq<string>)
    ensures |parts| >= 1
  {
    SplitFrom(s, [])
  }

  /** The split of `s` when the piece being read already holds `piece`. */
  function SplitFrom(s: string, piece: string): (parts: seq<string>)
    ensures |parts| >= 1
  {
    if s == [] then [piece]
    else if s[0] == LinkSep then [piece] + SplitFrom(s[1..], [])
    else SplitFrom(s[1..], piece + [s[0]])
  }

  /** `parts.join("_")` */
  function Join(parts: seq<string>): string
  {
    if |parts| == 0 then []
    else if |parts| == 1 then parts[0]
    else parts[0] + [LinkSep] + Join(parts[1..])
  }

  /** `now.split("_").reverse().join("_")` */
  function ReversedKey(s: string): string
  {
    Join(Reverse(Split(s)))
  }

  /** Joining the pieces of a split gives the string back. */
  lemma JoinSplit(s: string)
    ensures Join(Split(s)) == s
  {
    JoinSplitFrom(s, []);
  }

  lemma {:induction false} JoinSplitFrom(s: string, piece: string)
    ensures Join(SplitFrom(s, piece)) == piece + s
  {
    if s != [] {
      if s[0] == LinkSep {
        JoinSplitFrom(s[1..], []);
        var rest := SplitFrom(s[1..], []);
        assert ([piece] + rest)[1..] == rest;
        assert piece + s == piece + [LinkSep] + s[1..];
      } else {
        JoinSplitFrom(s[1..], piece + [s[0]]);
        assert piece + [s[0]] + s[1..] == piece + s;
      }
    }
  }

  /** A string with no `_` is a single piece. */
  lemma SplitClean(a: string)
    requires LinkSep !in a
    ensures Split(a) == [a]
  {
    SplitFromClean(a, []);
    assert [] + a == a;
  }

  lemma {:induction false} SplitFromClean(a: string, piece: string)
    requires LinkSep !in a
    ensures SplitFrom(a, piece) == [piece + a]
  {
    if a == [] {
      assert piece + a == piece;
    } else {
      assert a[0] in a && a[0] != LinkSep;
      SplitFromClean(a[1..], piece + [a[0]]);
      assert piece + [a[0]] + a[1..] == piece + a;
    }
  }

  /** Splitting `a_b` gives the pieces of `a`, then the pieces of `b`. */
  lemma SplitConcat(a: string, b: string)
    ensures Split(a + [LinkSep] + b) == Split(a) + Split(b)
  {
    SplitFromConcat(a, b, []);
  }

  lemma {:induction false} SplitFromConcat(a: string, b: string, piece: string)
    ensures SplitFrom(a + [LinkSep] + b, piece) == SplitFrom(a, piece) + Split(b)
  {
    var s := a + [LinkSep] + b;
    if a == [] {
      assert s[1..] == b;
    } else {
      assert s[0] == a[0] && s[1..] == a[1..] + [LinkSep] + b;
      if a[0] == LinkSep {
        SplitFromConcat(a[1..], b, []);
        assert [piece] + (SplitFrom(a[1..], []) + Split(b)) == ([piece] + SplitFrom(a[1..], [])) + Split(b);
      } else {
        SplitFromConcat(a[1..], b, piece + [a[0]]);
      }
    }
  }

  /** Splitting `a_b` with no `_` in `a` gives `a`, then the pieces of `b`. */
  lemma SplitAfterClean(a: string, b: string)
    requires LinkSep !in a
    ensures Split(a + [LinkSep] + b) == [a] + Split(b)
  {
    SplitConcat(a, b);
    SplitClean(a);
  }

  /** The pieces of a pair key of two underscore-free keys are the two keys. */
  lemma SplitPairKey(a: string, b: string)
    requires LinkSep !in a && LinkSep !in b
    ensures Split(PairKey(a, b)) == [a, b]
  {
    SplitConcat(a, b);
    SplitClean(a);
    SplitClean(b);
  }

  /**
   * A pair key equal to the pair key of two underscore-free keys is made of those two keys,
   * whatever its own parts hold.
   */
  lemma PairKeyUnsplit(a: string, b: string, c: string, d: string)
    requires LinkSep !in c && LinkSep !in d && PairKey(a, b) == PairKey(c, d)
    ensures a == c && b == d
  {
    SplitConcat(a, b);
    SplitPairKey(c, d);
    assert Split(a) + Split(b) == [c, d];
    assert Split(a) == [c] && Split(b) == [d] by {
      assert |Split(a)| == 1 && |Split(b)| == 1;
      assert Split(a) == (Split(a) + Split(b))[..1];
      assert Split(b) == (Split(a) + Split(b))[1..];
    }
    JoinSplit(a);
    JoinSplit(b);
  }

  /** Turning a pair key of two underscore-free keys round gives the pair key the other way round. */
  lemma ReversedPairKey(a: string, b: string)
    requires LinkSep !in a && LinkSep !in b
    ensures ReversedKey(PairKey(a, b)) == PairKey(b, a)
  {
    SplitPairKey(a, b);
    assert Reverse([a, b]) == [b, a] by {
      assert [a, b][1..] == [b];
      assert Reverse([b]) == [b] by {
        assert [b][1..] == [];
      }
    }
    assert [b, a][1..] == [a];
    assert Join([b, a]) == b + [LinkSep] + Join([a]);
  }

  /** With an underscore inside the first key, turning the pair key round gives a third key. */
  lemma ReversedKeyWithUnderscore()
    ensures ReversedKey(PairKey("x_y", "z")) == "z_y_x"
    ensures ReversedKey(PairKey("x_y", "z")) != PairKey("z", "x_y")
  {
    var s := PairKey("x_y", "z");
    assert s == "x" + [LinkSep] + ("y" + [LinkSep] + "z");
    SplitAfterClean("x", "y" + [LinkSep] + "z");
    SplitPairKey("y", "z");
    var parts := ["x", "y", "z"];
    assert Split(s) == parts;
    assert Reverse(parts) == ["z", "y", "x"] by {
      assert parts[1..] == ["y", "z"];
      assert Reverse(["y", "z"]) == ["z", "y"] by {
        assert ["y", "z"][1..] == ["z"];
        assert Reverse(["z"]) == ["z"] by {
          assert ["z"][1..] == [];
        }
      }
    }
    assert Join(["z", "y", "x"]) == "z_y_x" by {
      assert ["z", "y", "x"][1..] == ["y", "x"];
      assert ["y", "x"][1..] == ["x"];
      assert Join(["y", "x"]) == "y" + [LinkSep] + Join(["x"]);
    }
    assert PairKey("z", "x_y")[2] == 'x';
  }
}

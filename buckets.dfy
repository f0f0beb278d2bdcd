/**
 * Parallel-link bucketing shared by both graph engines (src/NLGraph.js:819-853 and
 * src/NLGraph-old.js:687-721): every link is counted under the key `a_b` of its endpoint
 * keys, or under the reversed key `b_a` when `a_b` is not yet a bucket; a second pass then
 * hands out ranks that count down within each bucket.
 *
 * Links are seen here only through their two endpoint key strings.
 */
module Buckets {
  import opened Keys

  /** The endpoint keys of one link, source first. */
  datatype Ends = Ends(src: string, tgt: string)

  /** Endpoint keys with no `_` in them, as node keys always are. */
  predicate Clean(e: Ends)
  {
    LinkSep !in e.src && LinkSep !in e.tgt
  }

  predicate AllClean(ends: seq<Ends>)
  {
    forall i :: 0 <= i < |ends| ==> Clean(ends[i])
  }

  function Swap(e: Ends): Ends
  {
    Ends(e.tgt, e.src)
  }

  /** `src_tgt` */
  function Forward(e: Ends): string
  {
    PairKey(e.src, e.tgt)
  }

  /** `tgt_src` */
  function Backward(e: Ends): string
  {
    PairKey(e.tgt, e.src)
  }

  /** The two links join the same unordered pair of endpoints. */
  predicate SamePair(a: Ends, b: Ends)
  {
    (a.src == b.src && a.tgt == b.tgt) || (a.src == b.tgt && a.tgt == b.src)
  }

  /** The bucket a link is filed under: its own key if that is a bucket already, else the reversed key. */
  function BucketKey(m: map<string, nat>, e: Ends): string
  {
    if Forward(e) in m then Forward(e) else Backward(e)
  }

  /** One more link in bucket `k`, which is opened with count 1 if it is new. */
  function Bump(m: map<string, nat>, k: string): (r: map<string, nat>)
    ensures r.Keys == m.Keys + {k}
  {
    m[k := if k in m then m[k] + 1 else 1]
  }

  /** The bucket counts after the first `n` links (the reduce of src/NLGraph.js:819-834). */
  function CountsAfter(ends: seq<Ends>, n: nat): map<string, nat>
    requires n <= |ends|
  {
    if n == 0 then map[]
    else
      var m := CountsAfter(ends, n - 1);
      Bump(m, BucketKey(m, ends[n - 1]))
  }

  /** `multiLinksNumCoord`: the bucket counts of all the links. */
  function PairCounts(ends: seq<Ends>): map<string, nat>
  {
    CountsAfter(ends, |ends|)
  }

  /** The position of the first of the first `n` links that joins `e`'s pair, or `n` if none does. */
  function FirstSame(ends: seq<Ends>, n: nat, e: Ends): (f: nat)
    requires n <= |ends|
    ensures f <= n
    ensures f < n ==> SamePair(ends[f], e)
    ensures forall j :: 0 <= j < f ==> !SamePair(ends[j], e)
  {
    if n == 0 then 0
    else
      var f := FirstSame(ends, n - 1, e);
      if f < n - 1 then f else if SamePair(ends[n - 1], e) then n - 1 else n
  }

  /** How many of the first `n` links join `e`'s pair. */
  function CountSame(ends: seq<Ends>, n: nat, e: Ends): nat
    requires n <= |ends|
  {
    if n == 0 then 0 else CountSame(ends, n - 1, e) + (if SamePair(ends[n - 1], e) then 1 else 0)
  }

  lemma FirstSameOfSamePair(ends: seq<Ends>, n: nat, a: Ends, b: Ends)
    requires n <= |ends| && SamePair(a, b)
    ensures FirstSame(ends, n, a) == FirstSame(ends, n, b)
  {
  }

  lemma {:induction false} CountSameOfSamePair(ends: seq<Ends>, n: nat, a: Ends, b: Ends)
    requires n <= |ends| && SamePair(a, b)
    ensures CountSame(ends, n, a) == CountSame(ends, n, b)
  {
    if n > 0 {
      CountSameOfSamePair(ends, n - 1, a, b);
    }
  }

  /** No link among the first `n` joins `e`'s pair, so none is counted. */
  lemma {:induction false} CountSameNone(ends: seq<Ends>, n: nat, e: Ends)
    requires n <= |ends| && FirstSame(ends, n, e) == n
    ensures CountSame(ends, n, e) == 0
  {
    if n > 0 {
      CountSameNone(ends, n - 1, e);
    }
  }

  /** Counting never goes down, and passes a link of the pair strictly. */
  lemma {:induction false} CountSameGrows(ends: seq<Ends>, i: nat, j: nat, e: Ends)
    requires i <= j <= |ends|
    ensures CountSame(ends, i, e) <= CountSame(ends, j, e)
    ensures i < j && SamePair(ends[i], e) ==> CountSame(ends, i, e) < CountSame(ends, j, e)
    decreases j - i
  {
    if i < j {
      CountSameGrows(ends, i + 1, j, e);
    }
  }

  /**
   * The invariant of the reduce after `n` links, for one clean pair `e`: the string `src_tgt`
   * is a bucket exactly when it is the reversed key of the first link of `e`'s pair, and that
   * bucket holds as many links as have joined the pair so far.
   */
  ghost predicate CountsInv(ends: seq<Ends>, n: nat, e: Ends)
    requires n <= |ends|
  {
    var m, f := CountsAfter(ends, n), FirstSame(ends, n, e);
    && (Forward(e) in m <==> f < n && Backward(ends[f]) == Forward(e))
    && (f < n ==> Backward(ends[f]) in m && m[Backward(ends[f])] == CountSame(ends, n, e))
  }

  /** What the bucket key of `e` is after `n` links, and whether it is a bucket yet. */
  ghost predicate BucketKeyFacts(ends: seq<Ends>, n: nat, e: Ends)
    requires n <= |ends|
  {
    var m, f := CountsAfter(ends, n), FirstSame(ends, n, e);
    && (f < n ==> BucketKey(m, e) == Backward(ends[f]) && BucketKey(m, e) in m)
    && (f == n ==> BucketKey(m, e) == Backward(e) && BucketKey(m, e) !in m)
  }

  /** The key bumped by link `n - 1` is the reversed key of the first link of that link's pair. */
  lemma BumpedKey(ends: seq<Ends>, n: nat)
    requires 0 < n <= |ends|
    ensures BucketKeyFacts(ends, n - 1, ends[n - 1]) ==>
      var en := ends[n - 1]; var g := FirstSame(ends, n, en);
      && g < n && SamePair(ends[g], en)
      && BucketKey(CountsAfter(ends, n - 1), en) == Backward(ends[g])
      && (BucketKey(CountsAfter(ends, n - 1), en) in CountsAfter(ends, n - 1) <==> g < n - 1)
  {
  }

  /**
   * One step of the reduce: if the counts are right for `e` after `n - 1` links and the bucket
   * of link `n - 1` is known, the counts are right for `e` after `n` links.
   */
  lemma CountsStep(ends: seq<Ends>, n: nat, e: Ends)
    requires 0 < n <= |ends| && AllClean(ends) && Clean(e)
    ensures CountsInv(ends, n - 1, e) && BucketKeyFacts(ends, n - 1, ends[n - 1]) ==> CountsInv(ends, n, e)
  {
    if CountsInv(ends, n - 1, e) && BucketKeyFacts(ends, n - 1, ends[n - 1]) {
      if SamePair(e, ends[n - 1]) {
        CountsStepSamePair(ends, n, e);
      } else {
        CountsStepOtherPair(ends, n, e);
      }
    }
  }

  /** One step of the reduce, for a pair that the new link joins. */
  lemma CountsStepSamePair(ends: seq<Ends>, n: nat, e: Ends)
    requires 0 < n <= |ends| && Clean(e) && SamePair(e, ends[n - 1])
    requires CountsInv(ends, n - 1, e) && BucketKeyFacts(ends, n - 1, ends[n - 1])
    ensures CountsInv(ends, n, e)
  {
    BumpedKey(ends, n);
    FirstSameOfSamePair(ends, n, e, ends[n - 1]);
    FirstSameOfSamePair(ends, n - 1, e, ends[n - 1]);
    if FirstSame(ends, n - 1, e) == n - 1 {
      CountSameNone(ends, n - 1, e);
    }
  }

  /** One step of the reduce, for a pair that the new link does not join. */
  lemma CountsStepOtherPair(ends: seq<Ends>, n: nat, e: Ends)
    requires 0 < n <= |ends| && AllClean(ends) && Clean(e) && !SamePair(e, ends[n - 1])
    requires CountsInv(ends, n - 1, e) && BucketKeyFacts(ends, n - 1, ends[n - 1])
    ensures CountsInv(ends, n, e)
  {
    BumpedKey(ends, n);
    var g := FirstSame(ends, n, ends[n - 1]);
    var c := Backward(ends[g]);
    var m0 := CountsAfter(ends, n - 1);
    assert CountsAfter(ends, n) == Bump(m0, c);
    PairKeyInjective(e.src, e.tgt, ends[g].tgt, ends[g].src);
    assert Forward(e) != c;
    var f := FirstSame(ends, n, e);
    assert f == FirstSame(ends, n - 1, e) || (f == n && FirstSame(ends, n - 1, e) == n - 1);
    assert CountSame(ends, n, e) == CountSame(ends, n - 1, e);
    if f < n {
      PairKeyInjective(ends[f].tgt, ends[f].src, ends[g].tgt, ends[g].src);
      assert Backward(ends[f]) != c;
    }
  }

  /** Before any link there are no buckets and no first link of any pair. */
  lemma CountsInvariantEmpty(ends: seq<Ends>, e: Ends)
    ensures CountsInv(ends, 0, e)
  {
    assert CountsAfter(ends, 0) == map[] && FirstSame(ends, 0, e) == 0;
  }

  lemma {:induction false} CountsInvariant(ends: seq<Ends>, n: nat, e: Ends)
    requires n <= |ends| && AllClean(ends) && Clean(e)
    ensures CountsInv(ends, n, e)
    decreases n, 0
  {
    if n == 0 {
      CountsInvariantEmpty(ends, e);
    } else {
      hide CountsInv, BucketKeyFacts, CountsAfter;
      CountsInvariant(ends, n - 1, e);
      BucketKeyAt(ends, n - 1, ends[n - 1]);
      CountsStep(ends, n, e);
    }
  }

  /**
   * The bucket a clean pair is looked up under after `n` links: the reversed key of the first
   * link of its pair, or, when the pair is new, its own reversed key, which is not yet a bucket.
   */
  lemma {:induction false} BucketKeyAt(ends: seq<Ends>, n: nat, e: Ends)
    requires n <= |ends| && AllClean(ends) && Clean(e)
    ensures BucketKeyFacts(ends, n, e)
    decreases n, 1
  {
    CountsInvariant(ends, n, e);
    CountsInvariant(ends, n, Swap(e));
    FirstSameOfSamePair(ends, n, e, Swap(e));
  }

  /**
   * After all links: a link's bucket is the reversed key of the first link of its pair, it is a
   * bucket, and it counts exactly the links of that pair.
   */
  lemma LinkBucket(ends: seq<Ends>, j: nat)
    requires AllClean(ends) && j < |ends|
    ensures var m, f := PairCounts(ends), FirstSame(ends, |ends|, ends[j]);
      && f <= j
      && BucketKey(m, ends[j]) == Backward(ends[f])
      && BucketKey(m, ends[j]) in m
      && m[BucketKey(m, ends[j])] == CountSame(ends, |ends|, ends[j])
  {
    BucketKeyAt(ends, |ends|, ends[j]);
    CountsInvariant(ends, |ends|, ends[j]);
  }

  /** Two links share a bucket exactly when they join the same unordered pair, whatever their direction. */
  lemma SameBucketIff(ends: seq<Ends>, i: nat, j: nat)
    requires AllClean(ends) && i < |ends| && j < |ends|
    ensures BucketKey(PairCounts(ends), ends[i]) == BucketKey(PairCounts(ends), ends[j])
            <==> SamePair(ends[i], ends[j])
  {
    LinkBucket(ends, i);
    LinkBucket(ends, j);
    var fi, fj := FirstSame(ends, |ends|, ends[i]), FirstSame(ends, |ends|, ends[j]);
    if SamePair(ends[i], ends[j]) {
      FirstSameOfSamePair(ends, |ends|, ends[i], ends[j]);
    } else {
      PairKeyInjective(ends[fi].tgt, ends[fi].src, ends[fj].tgt, ends[fj].src);
    }
  }

  /** Never both `a_b` and `b_a` are buckets, unless they are the same string. */
  lemma AtMostOneOrientation(ends: seq<Ends>, e: Ends)
    requires AllClean(ends) && Clean(e)
    requires Forward(e) in PairCounts(ends) && Backward(e) in PairCounts(ends)
    ensures e.src == e.tgt
  {
    CountsInvariant(ends, |ends|, e);
    CountsInvariant(ends, |ends|, Swap(e));
    FirstSameOfSamePair(ends, |ends|, e, Swap(e));
    PairKeyInjective(e.src, e.tgt, e.tgt, e.src);
  }

  /** A link that is the first of its pair opens that pair's bucket under its reversed key `tgt_src`. */
  lemma FirstLinkOpensReversedBucket(ends: seq<Ends>, j: nat)
    requires AllClean(ends) && j < |ends| && FirstSame(ends, |ends|, ends[j]) == j
    ensures Backward(ends[j]) in PairCounts(ends)
    ensures BucketKey(PairCounts(ends), ends[j]) == Backward(ends[j])
  {
    LinkBucket(ends, j);
  }

  /** Every bucket was opened by the first link of some pair, under that link's reversed key. */
  lemma {:induction false} BucketOpener(ends: seq<Ends>, n: nat, k: string) returns (j: nat)
    requires n <= |ends| && AllClean(ends) && k in CountsAfter(ends, n)
    ensures j < n && FirstSame(ends, n, ends[j]) == j && k == Backward(ends[j])
  {
    var m := CountsAfter(ends, n - 1);
    if k in m {
      j := BucketOpener(ends, n - 1, k);
    } else {
      BucketKeyAt(ends, n - 1, ends[n - 1]);
      BumpedKey(ends, n);
      j := FirstSame(ends, n, ends[n - 1]);
      FirstSameOfSamePair(ends, n, ends[j], ends[n - 1]);
    }
  }

  /** Buckets are only ever opened: the buckets after `i` links are still buckets after `n`. */
  lemma {:induction false} CountsKeysGrow(ends: seq<Ends>, i: nat, n: nat)
    requires i <= n <= |ends|
    ensures CountsAfter(ends, i).Keys <= CountsAfter(ends, n).Keys
    decreases n - i
  {
    if i < n {
      CountsKeysGrow(ends, i, n - 1);
    }
  }

  /** Every link finds its bucket among the final buckets, whatever its endpoint keys hold. */
  lemma BucketKeyInCounts(ends: seq<Ends>, j: nat)
    requires j < |ends|
    ensures BucketKey(PairCounts(ends), ends[j]) in PairCounts(ends)
  {
    CountsKeysGrow(ends, j, |ends|);
    CountsKeysGrow(ends, j + 1, |ends|);
  }

  /** How many of the first `n` links the final buckets `m` file under `k`. */
  function CountKey(ends: seq<Ends>, m: map<string, nat>, n: nat, k: string): nat
    requires n <= |ends|
  {
    if n == 0 then 0 else CountKey(ends, m, n - 1, k) + (if BucketKey(m, ends[n - 1]) == k then 1 else 0)
  }

  /** Counting by bucket key is counting by pair, wherever the two agree. */
  lemma {:induction false} CountKeyMatches(ends: seq<Ends>, m: map<string, nat>, n: nat, k: string, e: Ends)
    requires n <= |ends|
    requires forall i :: 0 <= i < n ==> (BucketKey(m, ends[i]) == k <==> SamePair(ends[i], e))
    ensures CountKey(ends, m, n, k) == CountSame(ends, n, e)
  {
    if n > 0 {
      CountKeyMatches(ends, m, n - 1, k, e);
    }
  }

  /** With clean keys, the links filed under a link's bucket are exactly the links of its pair. */
  lemma CountKeyIsCountSame(ends: seq<Ends>, n: nat, j: nat)
    requires AllClean(ends) && n <= |ends| && j < |ends|
    ensures CountKey(ends, PairCounts(ends), n, BucketKey(PairCounts(ends), ends[j])) == CountSame(ends, n, ends[j])
  {
    var m := PairCounts(ends);
    forall i | 0 <= i < n
      ensures BucketKey(m, ends[i]) == BucketKey(m, ends[j]) <==> SamePair(ends[i], ends[j])
    {
      SameBucketIff(ends, i, j);
    }
    CountKeyMatches(ends, m, n, BucketKey(m, ends[j]), ends[j]);
  }

  ghost function Pick(s: set<string>): string
    requires s != {}
  {
    var x :| x in s; x
  }

  /** The sum of the counts held in a bucket map. */
  ghost function SumValues(m: map<string, nat>): nat
    decreases |m|
  {
    if m == map[] then 0
    else
      var k := Pick(m.Keys);
      m[k] + SumValues(m - {k})
  }

  lemma {:induction false} SumValuesRemove(m: map<string, nat>, k: string)
    requires k in m
    ensures SumValues(m) == m[k] + SumValues(m - {k})
    decreases |m|
  {
    var p := Pick(m.Keys);
    if p != k {
      SumValuesRemove(m - {p}, k);
      SumValuesRemove(m - {k}, p);
      assert m - {p} - {k} == m - {k} - {p};
    }
  }

  lemma SumValuesBump(m: map<string, nat>, k: string)
    ensures SumValues(Bump(m, k)) == SumValues(m) + 1
  {
    var b := Bump(m, k);
    SumValuesRemove(b, k);
    if k in m {
      SumValuesRemove(m, k);
      assert b - {k} == m - {k};
    } else {
      assert b - {k} == m;
    }
  }

  /** The bucket counts add up to the number of links. */
  lemma {:induction false} BucketCountsSum(ends: seq<Ends>, n: nat)
    requires n <= |ends|
    ensures SumValues(CountsAfter(ends, n)) == n
  {
    if n > 0 {
      var m := CountsAfter(ends, n - 1);
      var k := BucketKey(m, ends[n - 1]);
      calc {
        SumValues(CountsAfter(ends, n));
        SumValues(Bump(m, k));
        { SumValuesBump(m, k); }
        SumValues(m) + 1;
        { BucketCountsSum(ends, n - 1); }
        n;
      }
    }
  }

  /**
   * The `linkIndex` the second pass gives link `j`: its pair's count, less one, less the links
   * of its pair that come before it.
   */
  function RankIndex(ends: seq<Ends>, j: nat): int
    requires j < |ends|
  {
    CountSame(ends, |ends|, ends[j]) - 1 - CountSame(ends, j, ends[j])
  }

  /** A link's rank lies in 0 .. k-1, with k the size of its bucket. */
  lemma RankIndexBounds(ends: seq<Ends>, j: nat)
    requires j < |ends|
    ensures 0 <= RankIndex(ends, j) < CountSame(ends, |ends|, ends[j])
  {
    CountSameGrows(ends, j, |ends|, ends[j]);
  }

  /** The first link of a pair gets the highest rank, k-1. */
  lemma RankIndexOfFirst(ends: seq<Ends>, j: nat)
    requires j < |ends| && FirstSame(ends, |ends|, ends[j]) == j
    ensures RankIndex(ends, j) == CountSame(ends, |ends|, ends[j]) - 1
  {
    assert FirstSame(ends, j, ends[j]) == j;
    CountSameNone(ends, j, ends[j]);
  }

  /**
   * Ranks count down in array order: a later link of the same pair has a smaller rank, one less
   * when no link of the pair stands between them.
   */
  lemma RankIndexCountsDown(ends: seq<Ends>, i: nat, j: nat)
    requires i < j < |ends| && SamePair(ends[i], ends[j])
    ensures RankIndex(ends, j) < RankIndex(ends, i)
    ensures (forall k :: i < k < j ==> !SamePair(ends[k], ends[j])) ==> RankIndex(ends, j) == RankIndex(ends, i) - 1
  {
    CountSameOfSamePair(ends, |ends|, ends[i], ends[j]);
    CountSameOfSamePair(ends, i, ends[i], ends[j]);
    CountSameGrows(ends, i, j, ends[j]);
    if forall k :: i < k < j ==> !SamePair(ends[k], ends[j]) {
      CountSameFlat(ends, i + 1, j, ends[j]);
    }
  }

  /** With no link of the pair between positions `i` and `j`, the count does not move. */
  lemma {:induction false} CountSameFlat(ends: seq<Ends>, i: nat, j: nat, e: Ends)
    requires i <= j <= |ends| && forall k :: i <= k < j ==> !SamePair(ends[k], e)
    ensures CountSame(ends, j, e) == CountSame(ends, i, e)
    decreases j - i
  {
    if i < j {
      CountSameFlat(ends, i, j - 1, e);
    }
  }

  /** Links of one pair get pairwise distinct ranks. */
  lemma RankIndexDistinct(ends: seq<Ends>, i: nat, j: nat)
    requires i < |ends| && j < |ends| && i != j && SamePair(ends[i], ends[j])
    ensures RankIndex(ends, i) != RankIndex(ends, j)
  {
    if i < j {
      RankIndexCountsDown(ends, i, j);
    } else {
      RankIndexCountsDown(ends, j, i);
    }
  }

  /** Before the count of a pair reaches above `c`, some link of the pair is met with exactly `c` before it. */
  lemma {:induction false} CountSameReaches(ends: seq<Ends>, n: nat, e: Ends, c: nat)
    requires n <= |ends| && c < CountSame(ends, n, e)
    ensures exists j :: 0 <= j < n && SamePair(ends[j], e) && CountSame(ends, j, e) == c
  {
    if CountSame(ends, n - 1, e) > c {
      CountSameReaches(ends, n - 1, e, c);
    } else {
      assert SamePair(ends[n - 1], e) && CountSame(ends, n - 1, e) == c;
    }
  }

  /** Every rank 0 .. k-1 of a pair of k links is taken by one of its links. */
  lemma RankIndexOnto(ends: seq<Ends>, e: Ends, r: nat)
    requires r < CountSame(ends, |ends|, e)
    ensures exists j :: 0 <= j < |ends| && SamePair(ends[j], e) && RankIndex(ends, j) == r
  {
    var k := CountSame(ends, |ends|, e);
    CountSameReaches(ends, |ends|, e, k - 1 - r);
    var j :| 0 <= j < |ends| && SamePair(ends[j], e) && CountSame(ends, j, e) == k - 1 - r;
    CountSameOfSamePair(ends, |ends|, ends[j], e);
    CountSameOfSamePair(ends, j, ends[j], e);
  }
}

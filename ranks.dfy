/**
 * The last two steps of readData_ (src/NLGraph.js:819-854): the links are counted into buckets
 * by the endpoint keys they now see (`multiLinksNumCoord`), then every link takes a countdown
 * `linkIndex` in its bucket, the bucket size as `totalNoLinks`, and the entry of
 * `computeLinePos(totalNoLinks)` at its index as `linkPos`.
 */
module LinkRanks {
  import opened Wrappers
  import opened Keys
  import opened GraphData
  import opened Buckets
  import opened Positions

  /** `[l.source.key, l.target.key]`, as property names: a raw endpoint has no key and gives "undefined". */
  function EndsOf(nodes: seq<Node>, l: Link): Ends
    requires EndpointOk(nodes, l.source) && EndpointOk(nodes, l.target)
  {
    Ends(PropName(EndKey(nodes, l.source)), PropName(EndKey(nodes, l.target)))
  }

  /** The endpoint pairs of all the links, in link order. */
  function AllEnds(nodes: seq<Node>, links: seq<Link>): (r: seq<Ends>)
    requires LinksOk(nodes, links)
    ensures |r| == |links| && forall j :: 0 <= j < |links| ==> r[j] == EndsOf(nodes, links[j])
  {
    EndsUpTo(nodes, links, |links|)
  }

  /** The endpoint pairs of the first `n` links (built one link at a time). */
  function EndsUpTo(nodes: seq<Node>, links: seq<Link>, n: nat): (r: seq<Ends>)
    requires LinksOk(nodes, links) && n <= |links|
    ensures |r| == n && forall j :: 0 <= j < n ==> r[j] == EndsOf(nodes, links[j])
  {
    if n == 0 then [] else EndsUpTo(nodes, links, n - 1) + [EndsOf(nodes, links[n - 1])]
  }

  /** The reduce callback on link i: file it under `src_tgt` if that is a bucket, else under `tgt_src`. */
  method CountLink(nodes: seq<Node>, links: seq<Link>, i: nat, last: map<string, nat>) returns (next: map<string, nat>)
    requires LinksOk(nodes, links) && i < |links| && last == CountsAfter(AllEnds(nodes, links), i)
    ensures next == CountsAfter(AllEnds(nodes, links), i + 1)
  {
    var l := links[i];
    var src, tgt := PropName(EndKey(nodes, l.source)), PropName(EndKey(nodes, l.target));
    var srcTgtKey, tgtSrcKey := PairKey(src, tgt), PairKey(tgt, src);
    var existingKey := if srcTgtKey in last then srcTgtKey else tgtSrcKey;
    assert AllEnds(nodes, links)[i] == Ends(src, tgt);
    if existingKey in last {
      next := last[existingKey := last[existingKey] + 1];
    } else {
      next := last[existingKey := 1];
    }
  }

  /** The reduce that fills `multiLinksNumCoord`. */
  method CountPairs(nodes: seq<Node>, links: seq<Link>) returns (counts: map<string, nat>)
    requires LinksOk(nodes, links)
    ensures counts == PairCounts(AllEnds(nodes, links))
  {
    ghost var ends := AllEnds(nodes, links);
    counts := map[];
    var i := 0;
    while i < |links|
      invariant 0 <= i <= |links| == |ends|
      invariant counts == CountsAfter(ends, i)
    {
      counts := CountLink(nodes, links, i, counts);
      i := i + 1;
    }
  }

  /** `copymultiLinksNumCoord`: a key-by-key copy of the counts, which the rank pass counts down. */
  method CopyCounts(counts: map<string, nat>) returns (copy: map<string, int>)
    ensures copy.Keys == counts.Keys && forall k :: k in counts ==> copy[k] == counts[k]
  {
    copy := map[];
    var rest := counts.Keys;
    while rest != {}
      invariant rest <= counts.Keys
      invariant copy.Keys == counts.Keys - rest
      invariant forall k :: k in copy ==> copy[k] == counts[k]
      decreases |rest|
    {
      var k :| k in rest;
      copy := copy[k := counts[k]];
      rest := rest - {k};
    }
  }

  /**
   * What the rank pass writes on link j: the count of its bucket less one less the links filed
   * under that bucket before it, the bucket's count, and that entry of the line-position table
   * (undefined when the index falls outside it).
   */
  function RankAt(ends: seq<Ends>, j: nat): Rank
    requires j < |ends|
  {
    var m := PairCounts(ends);
    var k := BucketKey(m, ends[j]);
    BucketKeyInCounts(ends, j);
    var index := m[k] - 1 - CountKey(ends, m, j, k);
    var pos := LinePos(m[k]);
    Rank(index, m[k], if 0 <= index < |pos| then Some(pos[index]) else None)
  }

  /** The rank of every link. */
  function Ranks(ends: seq<Ends>): seq<Rank>
  {
    seq(|ends|, j requires 0 <= j < |ends| => RankAt(ends, j))
  }

  /** The first n links with their ranks written on them. */
  function WithRanks(links: seq<Link>, ranks: seq<Rank>, n: nat): seq<Link>
    requires n <= |links| && n <= |ranks|
  {
    if n == 0 then [] else WithRanks(links, ranks, n - 1) + [links[n - 1].(rank := Some(ranks[n - 1]))]
  }

  /** The links as the rank pass leaves them. */
  function RankedLinks(nodes: seq<Node>, links: seq<Link>): seq<Link>
    requires LinksOk(nodes, links)
  {
    WithRanks(links, Ranks(AllEnds(nodes, links)), |links|)
  }

  /** Writing the ranks changes nothing on a link but its rank. */
  lemma {:induction false} WithRanksAt(links: seq<Link>, ranks: seq<Rank>, n: nat)
    requires n <= |links| && n <= |ranks|
    ensures |WithRanks(links, ranks, n)| == n
    ensures forall j :: 0 <= j < n ==> WithRanks(links, ranks, n)[j] == links[j].(rank := Some(ranks[j]))
  {
    if n > 0 {
      WithRanksAt(links, ranks, n - 1);
    }
  }

  /** The copy after the first i links: each bucket's count less the links already filed under it. */
  predicate CountedDown(ends: seq<Ends>, counts: map<string, nat>, copy: map<string, int>, i: nat)
    requires i <= |ends|
  {
    copy.Keys == counts.Keys && forall k :: k in copy ==> copy[k] == counts[k] - CountKey(ends, counts, i, k)
  }

  /** The rank callback on link i: count its bucket down and write the rank on the link. */
  method RankLink(nodes: seq<Node>, links: seq<Link>, counts: map<string, nat>, i: nat, copy: map<string, int>)
    returns (copy': map<string, int>, l: Link)
    requires LinksOk(nodes, links) && i < |links| && counts == PairCounts(AllEnds(nodes, links))
    requires CountedDown(AllEnds(nodes, links), counts, copy, i)
    ensures CountedDown(AllEnds(nodes, links), counts, copy', i + 1)
    ensures l == links[i].(rank := Some(Ranks(AllEnds(nodes, links))[i]))
  {
    ghost var ends := AllEnds(nodes, links);
    l := links[i];
    var src, tgt := PropName(EndKey(nodes, l.source)), PropName(EndKey(nodes, l.target));
    var srcTgtKey, tgtSrcKey := PairKey(src, tgt), PairKey(tgt, src);
    var existingKey := if srcTgtKey in copy then srcTgtKey else tgtSrcKey;
    assert ends[i] == Ends(src, tgt);
    assert existingKey == BucketKey(counts, ends[i]);
    RankStep(ends, i, copy);
    var linkIndex := copy[existingKey] - 1;
    copy' := copy[existingKey := linkIndex];
    var totalNoLinks := counts[existingKey];
    var posAry := ComputeLinePos(totalNoLinks);
    var linkPos := if 0 <= linkIndex < |posAry| then Some(posAry[linkIndex]) else None;
    l := l.(rank := Some(Rank(linkIndex, totalNoLinks, linkPos)));
  }

  /**
   * One step of the rank pass: the link's bucket is in the copy, counting it down keeps the copy
   * in step, and the values written are the link's rank.
   */
  lemma RankStep(ends: seq<Ends>, i: nat, copy: map<string, int>)
    requires i < |ends| && CountedDown(ends, PairCounts(ends), copy, i)
    ensures var m := PairCounts(ends); var k := BucketKey(m, ends[i]);
      && k in m && k in copy
      && CountedDown(ends, m, copy[k := copy[k] - 1], i + 1)
      && var index, pos := copy[k] - 1, LinePos(m[k]);
         Ranks(ends)[i] == Rank(index, m[k], if 0 <= index < |pos| then Some(pos[index]) else None)
  {
    var m := PairCounts(ends);
    var k := BucketKey(m, ends[i]);
    BucketKeyInCounts(ends, i);
    var copy' := copy[k := copy[k] - 1];
    forall k' | k' in copy'
      ensures copy'[k'] == m[k'] - CountKey(ends, m, i + 1, k')
    {
    }
    assert Ranks(ends)[i] == RankAt(ends, i);
  }

  /** The rank pass: each link counts down the copy of its bucket. */
  method RankLinks(nodes: seq<Node>, links: seq<Link>, counts: map<string, nat>) returns (ranked: seq<Link>)
    requires LinksOk(nodes, links) && counts == PairCounts(AllEnds(nodes, links))
    ensures ranked == RankedLinks(nodes, links)
  {
    ghost var ends := AllEnds(nodes, links);
    ghost var ranks := Ranks(ends);
    var copy := CopyCounts(counts);
    ranked := [];
    var i := 0;
    while i < |links|
      invariant 0 <= i <= |links| == |ends| == |ranks|
      invariant CountedDown(ends, counts, copy, i)
      invariant ranked == WithRanks(links, ranks, i)
    {
      var l;
      copy, l := RankLink(nodes, links, counts, i, copy);
      ranked := ranked + [l];
      i := i + 1;
    }
  }

  /**
   * With underscore-free endpoint keys, a link's rank is its countdown rank among the links of
   * its unordered pair, its total is the size of that pair, and its position is that entry of
   * the line-position table.
   */
  lemma RankAtMeaning(ends: seq<Ends>, j: nat)
    requires AllClean(ends) && j < |ends|
    ensures var r := RankAt(ends, j);
      && r.linkIndex == RankIndex(ends, j)
      && r.totalNoLinks == CountSame(ends, |ends|, ends[j])
      && 0 <= r.linkIndex < r.totalNoLinks
      && r.linkPos == Some(LinePos(r.totalNoLinks)[r.linkIndex])
  {
    var m := PairCounts(ends);
    var k := BucketKey(m, ends[j]);
    LinkBucket(ends, j);
    assert m[k] == CountSame(ends, |ends|, ends[j]);
    CountKeyIsCountSame(ends, j, j);
    assert CountKey(ends, m, j, k) == CountSame(ends, j, ends[j]);
    RankIndexBounds(ends, j);
    LinePosShape(m[k]);
  }

  /**
   * Within the bucket of a pair of k links: every link's index lies in 0..k-1, two links never
   * share an index or a position, the first link takes k-1 and a later link a smaller index,
   * and every index 0..k-1 is taken.
   */
  lemma BucketRanks(ends: seq<Ends>, i: nat, j: nat)
    requires AllClean(ends) && i < |ends| && j < |ends| && SamePair(ends[i], ends[j])
    ensures RankAt(ends, i).totalNoLinks == RankAt(ends, j).totalNoLinks
    ensures i != j ==> RankAt(ends, i).linkIndex != RankAt(ends, j).linkIndex
    ensures i != j ==> RankAt(ends, i).linkPos != RankAt(ends, j).linkPos
    ensures i < j ==> RankAt(ends, j).linkIndex < RankAt(ends, i).linkIndex
    ensures FirstSame(ends, |ends|, ends[i]) == i ==> RankAt(ends, i).linkIndex == RankAt(ends, i).totalNoLinks - 1
  {
    RankAtMeaning(ends, i);
    RankAtMeaning(ends, j);
    CountSameOfSamePair(ends, |ends|, ends[i], ends[j]);
    var k := CountSame(ends, |ends|, ends[i]);
    if i != j {
      RankIndexDistinct(ends, i, j);
      LinePosShape(k);
      var a, b := RankIndex(ends, i), RankIndex(ends, j);
      if a < b {
        assert LinePos(k)[a] != LinePos(k)[b];
      } else {
        assert LinePos(k)[b] != LinePos(k)[a];
      }
    }
    if i < j {
      RankIndexCountsDown(ends, i, j);
    }
    if FirstSame(ends, |ends|, ends[i]) == i {
      RankIndexOfFirst(ends, i);
    }
  }

  /** Every index 0..k-1 of a bucket of k links is taken by one of its links. */
  lemma BucketRanksOnto(ends: seq<Ends>, e: Ends, r: nat)
    requires AllClean(ends) && r < CountSame(ends, |ends|, e)
    ensures exists j :: 0 <= j < |ends| && SamePair(ends[j], e) && RankAt(ends, j).linkIndex == r
  {
    RankIndexOnto(ends, e, r);
    var j :| 0 <= j < |ends| && SamePair(ends[j], e) && RankIndex(ends, j) == r;
    RankAtMeaning(ends, j);
  }
}

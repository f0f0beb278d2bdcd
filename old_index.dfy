/**
 * `readData_` of the earlier engine (src/NLGraph-old.js:603-737): nodes are keyed by their plain
 * `id-type` string, `nodesObj` and `linksObj` keep the first record of each key, every link
 * marks its pair in `connectedDict`, a link whose two ends are both keys of `nodesObj` is
 * recorded in `outgoing`/`incoming` and pointed at those nodes, and the links are bucketed by
 * unordered pair and ranked as in the later engine, without line positions.
 */
module OldIndex {
  import opened Wrappers
  import opened Keys
  import opened GraphData
  import opened Buckets
  import opened LinkRanks
  import opened OldKeys

  /** The key of what a link end refers to, read from its current id and type. */
  function EndOldKey(nodes: seq<Node>, e: Endpoint): string
    requires EndpointOk(nodes, e)
  {
    OldKey(EndId(nodes, e), EndType(nodes, e))
  }

  predicate EndsOk(nodes: seq<Node>, l: Link)
  {
    EndpointOk(nodes, l.source) && EndpointOk(nodes, l.target)
  }

  /** `n0Key`, the key of the link's source. */
  function N0Key(nodes: seq<Node>, l: Link): string
    requires EndsOk(nodes, l)
  {
    EndOldKey(nodes, l.source)
  }

  /** `n1Key`, the key of the link's target. */
  function N1Key(nodes: seq<Node>, l: Link): string
    requires EndsOk(nodes, l)
  {
    EndOldKey(nodes, l.target)
  }

  /** `n0Key_n1Key_etype`, the key of the link in `linksObj`. */
  function LinkName(nodes: seq<Node>, l: Link): string
    requires EndsOk(nodes, l)
  {
    PairKey(PairKey(N0Key(nodes, l), N1Key(nodes, l)), PropName(l.etype))
  }

  /** The endpoint keys of a link, source first. */
  function OldEnds(nodes: seq<Node>, l: Link): Ends
    requires EndsOk(nodes, l)
  {
    Ends(N0Key(nodes, l), N1Key(nodes, l))
  }

  /** The keys of the nodes, in order. */
  function NodeNames(nodes: seq<Node>): seq<string>
  {
    seq(|nodes|, i requires 0 <= i < |nodes| => OldKey(nodes[i].id, nodes[i].nodeType))
  }

  /** The `linksObj` keys of the links, in order. */
  function LinkNames(nodes: seq<Node>, links: seq<Link>): (r: seq<string>)
    requires LinksOk(nodes, links)
    ensures |r| == |links|
  {
    seq(|links|, j requires 0 <= j < |links| => LinkName(nodes, links[j]))
  }

  /** The endpoint keys of the first `n` links. */
  function OldEndsUpTo(nodes: seq<Node>, links: seq<Link>, n: nat): (r: seq<Ends>)
    requires LinksOk(nodes, links) && n <= |links|
    ensures |r| == n && forall j :: 0 <= j < n ==> r[j] == OldEnds(nodes, links[j])
  {
    if n == 0 then [] else OldEndsUpTo(nodes, links, n - 1) + [OldEnds(nodes, links[n - 1])]
  }

  /** The endpoint keys of all the links. */
  function OldEndsOf(nodes: seq<Node>, links: seq<Link>): (r: seq<Ends>)
    requires LinksOk(nodes, links)
    ensures |r| == |links| && forall j :: 0 <= j < |links| ==> r[j] == OldEnds(nodes, links[j])
  {
    OldEndsUpTo(nodes, links, |links|)
  }

  /** No endpoint key holds a `_`, which holds when no id or type of an endpoint does. */
  predicate CleanEnds(nodes: seq<Node>, links: seq<Link>)
    requires LinksOk(nodes, links)
  {
    forall j :: 0 <= j < |links| ==> LinkSep !in N0Key(nodes, links[j]) && LinkSep !in N1Key(nodes, links[j])
  }

  /** Clean endpoint keys are clean bucket ends. */
  lemma CleanEndsClean(nodes: seq<Node>, links: seq<Link>)
    requires LinksOk(nodes, links) && CleanEnds(nodes, links)
    ensures AllClean(OldEndsOf(nodes, links))
  {
  }

  /** `nodesObj`: each node key mapped to the position of the first node with that key. */
  function NodesObjOf(nodes: seq<Node>): map<string, nat>
  {
    Registry(NodeNames(nodes), |nodes|)
  }

  /** A table of positions into `nodes`. */
  predicate ObjOk(nodes: seq<Node>, obj: map<string, nat>)
  {
    forall k :: k in obj ==> obj[k] < |nodes|
  }

  /**
   * `nodesObj` keeps the first node of each key: the node it names has that key, no earlier
   * node has it, and every node's key is there.
   */
  lemma NodesObjFirst(nodes: seq<Node>)
    ensures var obj := NodesObjOf(nodes);
      && ObjOk(nodes, obj)
      && (forall k :: k in obj ==>
            && OldKey(nodes[obj[k]].id, nodes[obj[k]].nodeType) == k
            && forall i :: 0 <= i < obj[k] ==> OldKey(nodes[i].id, nodes[i].nodeType) != k)
      && (forall i :: 0 <= i < |nodes| ==> OldKey(nodes[i].id, nodes[i].nodeType) in obj)
  {
    var names := NodeNames(nodes);
    RegistryFirst(names, |nodes|);
    var obj := NodesObjOf(nodes);
    forall k | k in obj
      ensures forall i :: 0 <= i < obj[k] ==> OldKey(nodes[i].id, nodes[i].nodeType) != k
    {
      forall i | 0 <= i < obj[k]
        ensures OldKey(nodes[i].id, nodes[i].nodeType) != k
      {
        assert names[i] == OldKey(nodes[i].id, nodes[i].nodeType);
      }
    }
    forall i | 0 <= i < |nodes|
      ensures OldKey(nodes[i].id, nodes[i].nodeType) in obj
    {
      assert names[i] == OldKey(nodes[i].id, nodes[i].nodeType);
    }
  }

  /**
   * `linksObj` keeps the first link of each key: the link it names has that key, no earlier link
   * has it, and every link's key is there.
   */
  lemma LinksObjFirst(nodes: seq<Node>, links: seq<Link>)
    requires LinksOk(nodes, links)
    ensures var m := Registry(LinkNames(nodes, links), |links|);
      && (forall k :: k in m ==>
            && m[k] < |links| && LinkName(nodes, links[m[k]]) == k
            && forall j :: 0 <= j < m[k] ==> LinkName(nodes, links[j]) != k)
      && (forall j :: 0 <= j < |links| ==> LinkName(nodes, links[j]) in m)
  {
    var names := LinkNames(nodes, links);
    RegistryFirst(names, |links|);
    var m := Registry(names, |links|);
    forall k | k in m
      ensures forall j :: 0 <= j < m[k] ==> LinkName(nodes, links[j]) != k
    {
      forall j | 0 <= j < m[k]
        ensures LinkName(nodes, links[j]) != k
      {
        assert names[j] == LinkName(nodes, links[j]);
      }
    }
    forall j | 0 <= j < |links|
      ensures LinkName(nodes, links[j]) in m
    {
      assert names[j] == LinkName(nodes, links[j]);
    }
  }

  /** The link with both ends found in `nodesObj` is pointed at those nodes; any other link is kept as it is. */
  function Resolve(nodes: seq<Node>, obj: map<string, nat>, l: Link): (r: Link)
    requires ObjOk(nodes, obj) && EndsOk(nodes, l)
    ensures EndsOk(nodes, r)
  {
    var k0, k1 := N0Key(nodes, l), N1Key(nodes, l);
    if k0 in obj && k1 in obj then l.(source := InNodes(obj[k0]), target := InNodes(obj[k1])) else l
  }

  /** Both ends of the link have keys of `nodesObj`. */
  predicate Found(nodes: seq<Node>, obj: map<string, nat>, l: Link)
    requires EndsOk(nodes, l)
  {
    N0Key(nodes, l) in obj && N1Key(nodes, l) in obj
  }

  /** `m[k][v] = true`, opening `m[k]` when it is missing. */
  function Mark(m: map<string, set<string>>, k: string, v: string): (r: map<string, set<string>>)
    ensures r.Keys == m.Keys + {k}
  {
    m[k := (if k in m then m[k] else {}) + {v}]
  }

  /** `connectedDict`, `incoming`, `outgoing` and the links as the link loop leaves them. */
  datatype LinkTables = LinkTables(
    connectedDict: set<string>,
    incoming: map<string, set<string>>,
    outgoing: map<string, set<string>>,
    links: seq<Link>)

  /** The tables after the link loop has seen the first `n` links. */
  function TablesAfter(nodes: seq<Node>, obj: map<string, nat>, links: seq<Link>, n: nat): LinkTables
    requires ObjOk(nodes, obj) && LinksOk(nodes, links) && n <= |links|
  {
    if n == 0 then LinkTables({}, map[], map[], [])
    else
      var t := TablesAfter(nodes, obj, links, n - 1);
      var l := links[n - 1];
      var k0, k1 := N0Key(nodes, l), N1Key(nodes, l);
      var dict := t.connectedDict + {PairKey(k0, k1)};
      if Found(nodes, obj, l) then
        LinkTables(dict, Mark(t.incoming, k1, k0), Mark(t.outgoing, k0, k1), t.links + [Resolve(nodes, obj, l)])
      else
        LinkTables(dict, t.incoming, t.outgoing, t.links + [l])
  }

  /** The link loop's links: link j resolved. */
  lemma {:induction false} TablesAfterLinks(nodes: seq<Node>, obj: map<string, nat>, links: seq<Link>, n: nat)
    requires ObjOk(nodes, obj) && LinksOk(nodes, links) && n <= |links|
    ensures var r := TablesAfter(nodes, obj, links, n).links;
      |r| == n && forall j :: 0 <= j < n ==> r[j] == Resolve(nodes, obj, links[j])
  {
    if n > 0 {
      TablesAfterLinks(nodes, obj, links, n - 1);
    }
  }

  /** `connectedDict` holds exactly the `n0Key_n1Key` of every link, found or not. */
  lemma {:induction false} ConnectedDictMeaning(nodes: seq<Node>, obj: map<string, nat>, links: seq<Link>, n: nat, k: string)
    requires ObjOk(nodes, obj) && LinksOk(nodes, links) && n <= |links|
    ensures k in TablesAfter(nodes, obj, links, n).connectedDict <==>
      exists j :: 0 <= j < n && PairKey(N0Key(nodes, links[j]), N1Key(nodes, links[j])) == k
  {
    if n > 0 {
      ConnectedDictMeaning(nodes, obj, links, n - 1, k);
    }
  }

  /**
   * `outgoing[s][t]` is set exactly for the found links from s to t, and `outgoing[s]` exists
   * exactly when some found link starts at s.
   */
  lemma {:induction false} OutgoingMeaning(nodes: seq<Node>, obj: map<string, nat>, links: seq<Link>, n: nat, s: string, t: string)
    requires ObjOk(nodes, obj) && LinksOk(nodes, links) && n <= |links|
    ensures var out := TablesAfter(nodes, obj, links, n).outgoing;
      && (s in out <==> exists j :: 0 <= j < n && Found(nodes, obj, links[j]) && N0Key(nodes, links[j]) == s)
      && (s in out && t in out[s] <==>
            exists j :: 0 <= j < n && Found(nodes, obj, links[j]) && N0Key(nodes, links[j]) == s && N1Key(nodes, links[j]) == t)
  {
    if n > 0 {
      OutgoingMeaning(nodes, obj, links, n - 1, s, t);
    }
  }

  /**
   * `incoming[t][s]` is set exactly for the found links from s to t, and `incoming[t]` exists
   * exactly when some found link ends at t.
   */
  lemma {:induction false} IncomingMeaning(nodes: seq<Node>, obj: map<string, nat>, links: seq<Link>, n: nat, t: string, s: string)
    requires ObjOk(nodes, obj) && LinksOk(nodes, links) && n <= |links|
    ensures var inc := TablesAfter(nodes, obj, links, n).incoming;
      && (t in inc <==> exists j :: 0 <= j < n && Found(nodes, obj, links[j]) && N1Key(nodes, links[j]) == t)
      && (t in inc && s in inc[t] <==>
            exists j :: 0 <= j < n && Found(nodes, obj, links[j]) && N0Key(nodes, links[j]) == s && N1Key(nodes, links[j]) == t)
  {
    if n > 0 {
      IncomingMeaning(nodes, obj, links, n - 1, t, s);
    }
  }

  /** Pointing a link at the first nodes of its keys keeps its keys, as those nodes carry them. */
  lemma ResolveKeepsKeys(nodes: seq<Node>, l: Link)
    requires EndsOk(nodes, l)
    ensures var obj := NodesObjOf(nodes);
      ObjOk(nodes, obj) && OldEnds(nodes, Resolve(nodes, obj, l)) == OldEnds(nodes, l)
  {
    NodesObjFirst(nodes);
  }

  /** The rank of every link: the countdown rank of its bucket and no line position. */
  function OldRanks(ends: seq<Ends>): seq<Rank>
  {
    seq(|ends|, j requires 0 <= j < |ends| => RankAt(ends, j).(linkPos := None))
  }

  /** Everything `readData_` assigns to the object (src/NLGraph-old.js:723-731), but the clusters and sizes. */
  datatype OldIndexed = OldIndexed(
    nodes: seq<Node>,
    links: seq<Link>,
    nodesObj: map<string, nat>,
    linksObj: map<string, nat>,
    connectedDict: set<string>,
    incoming: map<string, set<string>>,
    outgoing: map<string, set<string>>,
    multiLinksTotalNumDict: map<string, nat>)

  /** What `readData_` computes from `nodes` and `links`. */
  function OldIndexOf(nodes: seq<Node>, links: seq<Link>): OldIndexed
    requires LinksOk(nodes, links)
  {
    var obj := NodesObjOf(nodes);
    NodesObjFirst(nodes);
    var t := TablesAfter(nodes, obj, links, |links|);
    var ends := OldEndsOf(nodes, links);
    TablesAfterLinks(nodes, obj, links, |links|);
    OldIndexed(nodes, WithRanks(t.links, OldRanks(ends), |links|), obj, Registry(LinkNames(nodes, links), |links|),
      t.connectedDict, t.incoming, t.outgoing, PairCounts(ends))
  }

  /** After `readData_` every link is its input link, resolved, with its rank. */
  lemma OldIndexLinks(nodes: seq<Node>, links: seq<Link>)
    requires LinksOk(nodes, links)
    ensures var g, obj := OldIndexOf(nodes, links), NodesObjOf(nodes);
      && ObjOk(nodes, obj)
      && |g.links| == |links|
      && LinksOk(nodes, g.links)
      && forall j :: 0 <= j < |links| ==>
           && g.links[j] == Resolve(nodes, obj, links[j]).(rank := Some(RankAt(OldEndsOf(nodes, links), j).(linkPos := None)))
           && OldEnds(nodes, g.links[j]) == OldEnds(nodes, links[j])
  {
    var obj := NodesObjOf(nodes);
    NodesObjFirst(nodes);
    var t := TablesAfter(nodes, obj, links, |links|);
    TablesAfterLinks(nodes, obj, links, |links|);
    var ends := OldEndsOf(nodes, links);
    WithRanksAt(t.links, OldRanks(ends), |links|);
    forall j | 0 <= j < |links|
      ensures OldEnds(nodes, Resolve(nodes, obj, links[j])) == OldEnds(nodes, links[j])
    {
      ResolveKeepsKeys(nodes, links[j]);
    }
  }

  /** The links the link loop leaves are well formed and keep the endpoint keys of the input links. */
  lemma ResolvedLinks(nodes: seq<Node>, links: seq<Link>)
    requires LinksOk(nodes, links)
    ensures var obj := NodesObjOf(nodes);
      && ObjOk(nodes, obj)
      && var t := TablesAfter(nodes, obj, links, |links|);
         LinksOk(nodes, t.links) && OldEndsOf(nodes, t.links) == OldEndsOf(nodes, links)
  {
    var obj := NodesObjOf(nodes);
    NodesObjFirst(nodes);
    var t := TablesAfter(nodes, obj, links, |links|);
    TablesAfterLinks(nodes, obj, links, |links|);
    forall j | 0 <= j < |links|
      ensures OldEnds(nodes, t.links[j]) == OldEnds(nodes, links[j])
    {
      ResolveKeepsKeys(nodes, links[j]);
    }
  }

  /** The node loop that fills `nodesObj`. */
  method BuildNodesObj(nodes: seq<Node>) returns (nodesObj: map<string, nat>)
    ensures nodesObj == NodesObjOf(nodes)
  {
    nodesObj := map[];
    var i := 0;
    while i < |nodes|
      invariant 0 <= i <= |nodes|
      invariant nodesObj == Registry(NodeNames(nodes), i)
    {
      var k := OldKey(nodes[i].id, nodes[i].nodeType);
      assert NodeNames(nodes)[i] == k;
      RegistryStep(NodeNames(nodes), i);
      if k !in nodesObj {
        nodesObj := nodesObj[k := i];
      }
      i := i + 1;
    }
  }

  /**
   * The callback of the link loop on link i: file it in `linksObj` and `connectedDict`, and, when
   * both ends are nodes, in `outgoing` and `incoming`, pointing it at those nodes.
   */
  method ReadLink(nodes: seq<Node>, obj: map<string, nat>, links: seq<Link>, i: nat, t: LinkTables, linksObj: map<string, nat>)
    returns (t': LinkTables, linksObj': map<string, nat>)
    requires ObjOk(nodes, obj) && LinksOk(nodes, links) && i < |links|
    requires t == TablesAfter(nodes, obj, links, i) && linksObj == Registry(LinkNames(nodes, links), i)
    ensures t' == TablesAfter(nodes, obj, links, i + 1) && linksObj' == Registry(LinkNames(nodes, links), i + 1)
  {
    var link := links[i];
    var n0, n1 := link.source, link.target;
    var n0Key := OldKey(EndId(nodes, n0), EndType(nodes, n0));
    var n1Key := OldKey(EndId(nodes, n1), EndType(nodes, n1));
    var linkKey := PairKey(PairKey(n0Key, n1Key), PropName(link.etype));
    assert n0Key == N0Key(nodes, link) && n1Key == N1Key(nodes, link);
    assert LinkNames(nodes, links)[i] == linkKey;
    RegistryStep(LinkNames(nodes, links), i);
    linksObj' := if linkKey in linksObj then linksObj else linksObj[linkKey := i];
    var connectedDict := t.connectedDict + {PairKey(n0Key, n1Key)};
    if !(n0Key in obj && n1Key in obj) {
      t' := t.(connectedDict := connectedDict, links := t.links + [link]);
      return;
    }
    var outgoing, incoming := t.outgoing, t.incoming;
    if n0Key !in outgoing {
      outgoing := outgoing[n0Key := {}];
    }
    if n1Key !in incoming {
      incoming := incoming[n1Key := {}];
    }
    outgoing := outgoing[n0Key := outgoing[n0Key] + {n1Key}];
    incoming := incoming[n1Key := incoming[n1Key] + {n0Key}];
    link := link.(source := InNodes(obj[n0Key]), target := InNodes(obj[n1Key]));
    assert outgoing == Mark(t.outgoing, n0Key, n1Key) && incoming == Mark(t.incoming, n1Key, n0Key);
    assert link == Resolve(nodes, obj, links[i]);
    t' := LinkTables(connectedDict, incoming, outgoing, t.links + [link]);
  }

  /** The link loop. */
  method ReadLinks(nodes: seq<Node>, obj: map<string, nat>, links: seq<Link>) returns (t: LinkTables, linksObj: map<string, nat>)
    requires ObjOk(nodes, obj) && LinksOk(nodes, links)
    ensures t == TablesAfter(nodes, obj, links, |links|) && linksObj == Registry(LinkNames(nodes, links), |links|)
  {
    t, linksObj := LinkTables({}, map[], map[], []), map[];
    var i := 0;
    while i < |links|
      invariant 0 <= i <= |links|
      invariant t == TablesAfter(nodes, obj, links, i) && linksObj == Registry(LinkNames(nodes, links), i)
    {
      t, linksObj := ReadLink(nodes, obj, links, i, t, linksObj);
      i := i + 1;
    }
  }

  /**
   * The reduce callback on `now`, a `src_tgt` key: file it under `now` if that is a bucket,
   * else under the key turned round by split, reverse and join.
   */
  method CountPairName(now: string, last: map<string, nat>) returns (next: map<string, nat>)
    ensures next == Bump(last, if now in last then now else ReversedKey(now))
  {
    var srcTgtKey := now;
    var tgtSrcKey := ReversedKey(now);
    var existingKey := if srcTgtKey in last then srcTgtKey else tgtSrcKey;
    if existingKey in last {
      next := last[existingKey := last[existingKey] + 1];
    } else {
      next := last[existingKey := 1];
    }
  }

  /** Filing the i-th link under its `src_tgt`, or else under that key turned round, is the bucket count step. */
  lemma CountStep(ends: seq<Ends>, i: nat, last: map<string, nat>)
    requires i < |ends| && Clean(ends[i]) && last == CountsAfter(ends, i)
    ensures var now := Forward(ends[i]);
      CountsAfter(ends, i + 1) == Bump(last, if now in last then now else ReversedKey(now))
  {
    ReversedPairKey(ends[i].src, ends[i].tgt);
  }

  /** The map to `src_tgt` strings and the reduce that fill `multiLinksTotalNumDict`, one link at a time. */
  method CountPairNames(nodes: seq<Node>, links: seq<Link>) returns (counts: map<string, nat>)
    requires LinksOk(nodes, links) && CleanEnds(nodes, links)
    ensures counts == PairCounts(OldEndsOf(nodes, links))
  {
    ghost var ends := OldEndsOf(nodes, links);
    CleanEndsClean(nodes, links);
    counts := map[];
    var i := 0;
    while i < |links|
      invariant 0 <= i <= |links| == |ends|
      invariant counts == CountsAfter(ends, i)
    {
      var now := PairKey(N0Key(nodes, links[i]), N1Key(nodes, links[i]));
      assert now == Forward(ends[i]);
      CountStep(ends, i, counts);
      counts := CountPairName(now, counts);
      i := i + 1;
    }
  }

  /** The rank callback on link i: count its bucket down and write the index and the total on the link. */
  method RankLink(nodes: seq<Node>, links: seq<Link>, counts: map<string, nat>, i: nat, copy: map<string, int>)
    returns (copy': map<string, int>, l: Link)
    requires LinksOk(nodes, links) && i < |links| && counts == PairCounts(OldEndsOf(nodes, links))
    requires CountedDown(OldEndsOf(nodes, links), counts, copy, i)
    ensures CountedDown(OldEndsOf(nodes, links), counts, copy', i + 1)
    ensures l == links[i].(rank := Some(OldRanks(OldEndsOf(nodes, links))[i]))
  {
    ghost var ends := OldEndsOf(nodes, links);
    l := links[i];
    var src, tgt := N0Key(nodes, l), N1Key(nodes, l);
    var prefixKeySrcTgt, prefixKeyTgtSrc := PairKey(src, tgt), PairKey(tgt, src);
    var existingKey := if prefixKeySrcTgt in copy then prefixKeySrcTgt else prefixKeyTgtSrc;
    assert ends[i] == Ends(src, tgt);
    assert existingKey == BucketKey(counts, ends[i]);
    RankStep(ends, i, copy);
    assert Ranks(ends)[i] == RankAt(ends, i);
    var linkIndex := copy[existingKey] - 1;
    assert OldRanks(ends)[i] == Rank(linkIndex, counts[existingKey], None);
    copy' := copy[existingKey := linkIndex];
    l := l.(rank := Some(Rank(linkIndex, counts[existingKey], None)));
  }

  /** The rank pass. */
  method RankLinks(nodes: seq<Node>, links: seq<Link>, counts: map<string, nat>) returns (ranked: seq<Link>)
    requires LinksOk(nodes, links) && counts == PairCounts(OldEndsOf(nodes, links))
    ensures ranked == WithRanks(links, OldRanks(OldEndsOf(nodes, links)), |links|)
  {
    ghost var ends := OldEndsOf(nodes, links);
    ghost var ranks := OldRanks(ends);
    var copy := CopyCounts(counts);
    ranked := [];
    var i := 0;
    while i < |links|
      invariant 0 <= i <= |links| == |ends| == |ranks|
      invariant CountedDown(ends, counts, copy, i)
      invariant ranked == WithRanks(links, ranks, i)
    {
      var l;
      copy, l := RankLink(nodes, links, counts, i, copy);
      ranked := ranked + [l];
      i := i + 1;
    }
  }

  /** The body of `readData_` up to the assignments. */
  method ReadTables(nodes: seq<Node>, links: seq<Link>) returns (g: OldIndexed)
    requires LinksOk(nodes, links) && CleanEnds(nodes, links)
    ensures g == OldIndexOf(nodes, links)
  {
    var obj := BuildNodesObj(nodes);
    NodesObjFirst(nodes);
    var t, linksObj := ReadLinks(nodes, obj, links);
    ResolvedLinks(nodes, links);
    var counts := CountPairNames(nodes, t.links);
    var ranked := RankLinks(nodes, t.links, counts);
    g := OldIndexed(nodes, ranked, obj, linksObj, t.connectedDict, t.incoming, t.outgoing, counts);
  }

  /**
   * With no `_` in any endpoint key, `multiLinksTotalNumDict` files two links under one key
   * exactly when they join the same unordered pair of keys, and its counts sum to the number
   * of links.
   */
  lemma OldBuckets(nodes: seq<Node>, links: seq<Link>, i: nat, j: nat)
    requires LinksOk(nodes, links) && CleanEnds(nodes, links) && i < |links| && j < |links|
    ensures var m, ends := OldIndexOf(nodes, links).multiLinksTotalNumDict, OldEndsOf(nodes, links);
      && SumValues(m) == |links|
      && (BucketKey(m, ends[i]) == BucketKey(m, ends[j]) <==> SamePair(OldEnds(nodes, links[i]), OldEnds(nodes, links[j])))
  {
    var ends := OldEndsOf(nodes, links);
    CleanEndsClean(nodes, links);
    BucketCountsSum(ends, |ends|);
    SameBucketIff(ends, i, j);
  }

  /**
   * With no `_` in any endpoint key, the links of one bucket of size k carry the count k and
   * distinct `linkIndex` values in 0..k-1 that count down in array order, the first link
   * getting k-1; no link carries a line position.
   */
  lemma OldBucketRanks(nodes: seq<Node>, links: seq<Link>, i: nat, j: nat)
    requires LinksOk(nodes, links) && CleanEnds(nodes, links) && i < |links| && j < |links|
    requires SamePair(OldEnds(nodes, links[i]), OldEnds(nodes, links[j]))
    ensures var g := OldIndexOf(nodes, links); |g.links| == |links| && g.links[i].rank.Some? && g.links[j].rank.Some?
    ensures var g := OldIndexOf(nodes, links); var ri, rj := g.links[i].rank.value, g.links[j].rank.value;
      && ri.totalNoLinks == rj.totalNoLinks
      && 0 <= ri.linkIndex < ri.totalNoLinks
      && ri.linkPos == None
      && (i != j ==> ri.linkIndex != rj.linkIndex)
      && (i < j ==> rj.linkIndex < ri.linkIndex)
      && (FirstSame(OldEndsOf(nodes, links), |links|, OldEnds(nodes, links[i])) == i ==> ri.linkIndex == ri.totalNoLinks - 1)
  {
    var ends := OldEndsOf(nodes, links);
    CleanEndsClean(nodes, links);
    OldIndexLinks(nodes, links);
    RankAtMeaning(ends, i);
    BucketRanks(ends, i, j);
  }

  /** Every index below the size of a bucket is the `linkIndex` of some link of that bucket. */
  lemma OldBucketRanksOnto(nodes: seq<Node>, links: seq<Link>, i: nat, r: nat)
    requires LinksOk(nodes, links) && CleanEnds(nodes, links) && i < |links|
    ensures var g := OldIndexOf(nodes, links); |g.links| == |links| && g.links[i].rank.Some?
    ensures var g := OldIndexOf(nodes, links);
      r < g.links[i].rank.value.totalNoLinks ==>
        exists j :: 0 <= j < |links| && SamePair(OldEnds(nodes, links[j]), OldEnds(nodes, links[i])) &&
          g.links[j].rank.Some? && g.links[j].rank.value.linkIndex == r
  {
    var ends := OldEndsOf(nodes, links);
    var g := OldIndexOf(nodes, links);
    CleanEndsClean(nodes, links);
    OldIndexLinks(nodes, links);
    RankAtMeaning(ends, i);
    if r < g.links[i].rank.value.totalNoLinks {
      BucketRanksOnto(ends, ends[i], r);
      var j :| 0 <= j < |ends| && SamePair(ends[j], ends[i]) && RankAt(ends, j).linkIndex == r;
      assert ends[j] == OldEnds(nodes, links[j]) && ends[i] == OldEnds(nodes, links[i]);
      assert g.links[j].rank == Some(RankAt(ends, j).(linkPos := None));
      assert SamePair(OldEnds(nodes, links[j]), OldEnds(nodes, links[i])) && g.links[j].rank.value.linkIndex == r;
    }
  }
}

/**
 * readData_ of src/NLGraph.js (709-873) as a whole: the node loops, the link loop, the pair
 * buckets and the rank pass, run one after the other over the same records, and what the
 * tables they leave say about the links.
 */
module GraphIndex {
  import opened Wrappers
  import opened Keys
  import opened GraphData
  import opened NodeIndex
  import opened LinkIndex
  import opened Buckets
  import opened LinkRanks

  /** An endpoint outside `nodes` carries no key, or a key without `_` (a node key it was given earlier). */
  predicate CleanEnd(e: Endpoint)
  {
    e.Detached? && e.key.Some? ==> LinkSep !in e.key.value
  }

  predicate CleanKeys(links: seq<Link>)
  {
    forall j :: 0 <= j < |links| ==> CleanEnd(links[j].source) && CleanEnd(links[j].target)
  }

  /** Everything readData_ assigns to the graph. */
  datatype Indexed = Indexed(
    nodes: seq<Node>,
    links: seq<Link>,
    nodeIDsMap: map<string, nat>,
    nodeTypesMap: map<string, nat>,
    linkTypesMap: map<string, nat>,
    nodesObj: map<string, nat>,
    linkKeys: seq<string>,
    linksObj: map<string, nat>,
    connectedMap: map<string, nat>,
    incoming: map<string, set<string>>,
    outgoing: map<string, set<string>>,
    multiLinksNumCoord: map<string, nat>)

  /** The link loop may read the endpoints of every link. */
  lemma EnvLinksOk(nodes: seq<Node>, links: seq<Link>)
    requires LinksOk(nodes, links)
    ensures AllLinksOk(EnvOf(nodes), links)
  {
    assert |EnvOf(nodes).nodes| == |nodes|;
  }

  /** `nodesObj` points at nodes. */
  lemma NodesObjInRange(nodes: seq<Node>)
    ensures forall k :: k in EnvOf(nodes).nodesObj ==> EnvOf(nodes).nodesObj[k] < |nodes|
    ensures |EnvOf(nodes).nodes| == |nodes|
  {
    forall k | k in EnvOf(nodes).nodesObj
      ensures EnvOf(nodes).nodesObj[k] < |nodes|
    {
      NodesObjFirst(nodes, k);
    }
  }

  /**
   * Link j as the link loop leaves it: keyed, its endpoints the same ids and types as before (as
   * property names), pointed into `nodes` when both are found and untouched otherwise.
   */
  lemma ProcessedLinkFacts(nodes: seq<Node>, links: seq<Link>, j: nat)
    requires LinksOk(nodes, links) && j < |links|
    ensures AllLinksOk(EnvOf(nodes), links)
    ensures var env, l := EnvOf(nodes), links[j]; var p := ProcessedLink(env, links, j);
      && LinkOk(env, p)
      && p.etype == l.etype && p.attr == l.attr && p.style == l.style && p.directed == l.directed
      && p.key == Some(LinkKeyAt(env, links, j))
      && (Resolves(env, l) ==>
            && p.source == InNodes(env.nodesObj[N0Key(env, l)]) && p.target == InNodes(env.nodesObj[N1Key(env, l)])
            && env.nodes[p.source.index].key == Some(N0Key(env, l)) && env.nodes[p.target.index].key == Some(N1Key(env, l)))
      && (!Resolves(env, l) ==> p.source == l.source && p.target == l.target)
  {
    EnvLinksOk(nodes, links);
    var env, l := EnvOf(nodes), links[j];
    NodesObjInRange(nodes);
    if Resolves(env, l) {
      NodesObjFirst(nodes, N0Key(env, l));
      NodesObjFirst(nodes, N1Key(env, l));
    }
  }

  /** Every keyed node carries a key, and node keys hold no `_`. */
  lemma KeyedNodeKey(nodes: seq<Node>, i: nat)
    requires i < |nodes|
    ensures |KeyedNodes(nodes)| == |nodes|
    ensures KeyedNodes(nodes)[i].key.Some? && LinkSep !in KeyedNodes(nodes)[i].key.value
    ensures KeyedNodes(nodes)[i].id == nodes[i].id && KeyedNodes(nodes)[i].nodeType == nodes[i].nodeType
  {
  }

  /** An endpoint's key, as a property name, holds no `_`. */
  lemma CleanEndKey(nodes: seq<Node>, e: Endpoint)
    requires EndpointOk(KeyedNodes(nodes), e) && CleanEnd(e)
    ensures LinkSep !in PropName(EndKey(KeyedNodes(nodes), e))
  {
    if e.InNodes? {
      KeyedNodeKey(nodes, e.index);
    }
  }

  /** The links the link loop leaves still point into `nodes`, and keep clean endpoint keys. */
  lemma ProcessedLinksOk(nodes: seq<Node>, links: seq<Link>)
    requires LinksOk(nodes, links)
    ensures AllLinksOk(EnvOf(nodes), links)
    ensures var t := LinkTablesOf(EnvOf(nodes), links);
      && |t.links| == |links|
      && LinksOk(KeyedNodes(nodes), t.links)
      && (forall j :: 0 <= j < |links| ==> t.links[j] == ProcessedLink(EnvOf(nodes), links, j))
      && (CleanKeys(links) ==> CleanKeys(t.links))
  {
    var env := EnvOf(nodes);
    EnvLinksOk(nodes, links);
    ProcessedLinksAt(env, links, |links|);
    var ps := ProcessedLinks(env, links, |links|);
    forall j | 0 <= j < |links|
      ensures EndpointOk(env.nodes, ps[j].source) && EndpointOk(env.nodes, ps[j].target)
      ensures CleanEnd(links[j].source) && CleanEnd(links[j].target) ==> CleanEnd(ps[j].source) && CleanEnd(ps[j].target)
    {
      ProcessedLinkFacts(nodes, links, j);
    }
  }

  /**
   * readData_ over `nodes` and `links`: key the nodes, run the link loop, count the pairs among
   * the links as the loop left them, and rank those links.
   */
  function IndexOf(nodes: seq<Node>, links: seq<Link>): Indexed
    requires LinksOk(nodes, links)
  {
    var env := EnvOf(nodes);
    ProcessedLinksOk(nodes, links);
    var t := LinkTablesOf(env, links);
    Indexed(env.nodes, RankedLinks(env.nodes, t.links), env.idsMap, env.typesMap, t.linkTypesMap, env.nodesObj,
      t.linkKeys, t.linksObj, t.connectedMap, t.incoming, t.outgoing, PairCounts(AllEnds(env.nodes, t.links)))
  }

  /** The endpoint keys the buckets and ranks are computed from. */
  function IndexEnds(nodes: seq<Node>, links: seq<Link>): seq<Ends>
    requires LinksOk(nodes, links)
  {
    ProcessedLinksOk(nodes, links);
    AllEnds(KeyedNodes(nodes), LinkTablesOf(EnvOf(nodes), links).links)
  }

  /** Writing the ranks leaves every endpoint where it was. */
  lemma RankedLinksKeepEnds(nodes: seq<Node>, links: seq<Link>)
    requires LinksOk(nodes, links)
    ensures var r := RankedLinks(nodes, links);
      && |r| == |links|
      && LinksOk(nodes, r)
      && (forall j :: 0 <= j < |links| ==> r[j] == links[j].(rank := Some(RankAt(AllEnds(nodes, links), j))))
      && AllEnds(nodes, r) == AllEnds(nodes, links)
  {
    var ends := AllEnds(nodes, links);
    WithRanksAt(links, Ranks(ends), |links|);
    var r := RankedLinks(nodes, links);
    forall j | 0 <= j < |links|
      ensures r[j] == links[j].(rank := Some(RankAt(ends, j)))
    {
    }
  }

  /** Links over keyed nodes with clean endpoint keys show endpoint keys without `_`. */
  lemma CleanEnds(nodes: seq<Node>, links: seq<Link>)
    requires LinksOk(KeyedNodes(nodes), links) && CleanKeys(links)
    ensures AllClean(AllEnds(KeyedNodes(nodes), links))
  {
    forall j | 0 <= j < |links|
      ensures Clean(AllEnds(KeyedNodes(nodes), links)[j])
    {
      CleanEndKey(nodes, links[j].source);
      CleanEndKey(nodes, links[j].target);
    }
  }

  /**
   * The links readData_ leaves are the links the link loop leaves with their ranks written on
   * them: they point into the keyed nodes, and with clean endpoint keys on input the endpoint keys
   * they show hold no `_`.
   */
  lemma IndexLinks(nodes: seq<Node>, links: seq<Link>)
    requires LinksOk(nodes, links)
    ensures AllLinksOk(EnvOf(nodes), links)
    ensures var g, ends := IndexOf(nodes, links), IndexEnds(nodes, links);
      && |g.links| == |links| == |ends|
      && |g.nodes| == |nodes|
      && LinksOk(g.nodes, g.links)
      && (forall j :: 0 <= j < |links| ==>
            g.links[j] == ProcessedLink(EnvOf(nodes), links, j).(rank := Some(RankAt(ends, j))))
      && AllEnds(g.nodes, g.links) == ends
      && (CleanKeys(links) ==> CleanKeys(g.links) && AllClean(ends))
  {
    ProcessedLinksOk(nodes, links);
    var t := LinkTablesOf(EnvOf(nodes), links);
    RankedLinksKeepEnds(KeyedNodes(nodes), t.links);
    if CleanKeys(links) {
      CleanEnds(nodes, t.links);
    }
  }

  /** `n0Key` of link j: the key built from its source's id and type. */
  function SrcKey(nodes: seq<Node>, links: seq<Link>, j: nat): string
    requires LinksOk(nodes, links) && j < |links|
  {
    EnvLinksOk(nodes, links);
    N0Key(EnvOf(nodes), links[j])
  }

  /** `n1Key` of link j. */
  function TgtKey(nodes: seq<Node>, links: seq<Link>, j: nat): string
    requires LinksOk(nodes, links) && j < |links|
  {
    EnvLinksOk(nodes, links);
    N1Key(EnvOf(nodes), links[j])
  }

  /** Both endpoint keys of link j are node keys, so the link loop enters it in `outgoing` and `incoming`. */
  predicate Found(nodes: seq<Node>, links: seq<Link>, j: nat)
    requires LinksOk(nodes, links) && j < |links|
  {
    var obj := NodesObj(KeyedNodes(nodes));
    SrcKey(nodes, links, j) in obj && TgtKey(nodes, links, j) in obj
  }

  /** The pair `n0Key_n1Key` link j records in `connectedMap`. */
  function LinkPair(nodes: seq<Node>, links: seq<Link>, j: nat): string
    requires LinksOk(nodes, links) && j < |links|
  {
    PairKey(SrcKey(nodes, links, j), TgtKey(nodes, links, j))
  }

  /**
   * `connectedMap` holds the pair of every link, found or not, and nothing else; each pair is
   * mapped to the last link recording it.
   */
  lemma ConnectedMapMeaning(nodes: seq<Node>, links: seq<Link>, k: string)
    requires LinksOk(nodes, links)
    ensures var m := IndexOf(nodes, links).connectedMap;
      && (k in m <==> exists j :: 0 <= j < |links| && LinkPair(nodes, links, j) == k)
      && (k in m ==> m[k] < |links| && LinkPair(nodes, links, m[k]) == k &&
                     forall p :: m[k] < p < |links| ==> LinkPair(nodes, links, p) != k)
  {
    EnvLinksOk(nodes, links);
    var env := EnvOf(nodes);
    var names := PairNames(env, links);
    var m := IndexOf(nodes, links).connectedMap;
    assert m == LastIndex(names, |links|);
    LastIndexFacts(names, |links|);
    forall j | 0 <= j < |links|
      ensures names[j] == LinkPair(nodes, links, j)
    {
    }
  }

  /** The arrivals `outgoing` is built from are the found links, from source key to target key. */
  lemma OutArrivalsAt(nodes: seq<Node>, links: seq<Link>, j: nat)
    requires LinksOk(nodes, links) && j < |links|
    ensures AllLinksOk(EnvOf(nodes), links)
    ensures var a := OutArrivals(EnvOf(nodes), links)[j];
      a.resolved == Found(nodes, links, j) && a.from == SrcKey(nodes, links, j) && a.to == TgtKey(nodes, links, j)
    ensures var a := InArrivals(EnvOf(nodes), links)[j];
      a.resolved == Found(nodes, links, j) && a.from == TgtKey(nodes, links, j) && a.to == SrcKey(nodes, links, j)
  {
    EnvLinksOk(nodes, links);
  }

  /**
   * Only presence in `outgoing` is reliable: its keys are exactly the source keys of the found
   * links, and an entry holds only target keys of found links from that source.
   */
  lemma OutgoingMeaning(nodes: seq<Node>, links: seq<Link>, k: string)
    requires LinksOk(nodes, links)
    ensures var m := IndexOf(nodes, links).outgoing;
      && (k in m <==> exists j :: 0 <= j < |links| && Found(nodes, links, j) && SrcKey(nodes, links, j) == k)
      && (k in m ==> forall t :: t in m[k] ==>
            exists j :: 0 <= j < |links| && Found(nodes, links, j) && SrcKey(nodes, links, j) == k && TgtKey(nodes, links, j) == t)
  {
    EnvLinksOk(nodes, links);
    var arr := OutArrivals(EnvOf(nodes), links);
    assert IndexOf(nodes, links).outgoing == AdjAfter(arr, |links|);
    AdjAfterShape(arr, |links|);
    forall j | 0 <= j < |links|
      ensures arr[j].resolved == Found(nodes, links, j) && arr[j].from == SrcKey(nodes, links, j) && arr[j].to == TgtKey(nodes, links, j)
    {
      OutArrivalsAt(nodes, links, j);
    }
  }

  /** The same for `incoming`, from target key to source key. */
  lemma IncomingMeaning(nodes: seq<Node>, links: seq<Link>, k: string)
    requires LinksOk(nodes, links)
    ensures var m := IndexOf(nodes, links).incoming;
      && (k in m <==> exists j :: 0 <= j < |links| && Found(nodes, links, j) && TgtKey(nodes, links, j) == k)
      && (k in m ==> forall s :: s in m[k] ==>
            exists j :: 0 <= j < |links| && Found(nodes, links, j) && TgtKey(nodes, links, j) == k && SrcKey(nodes, links, j) == s)
  {
    EnvLinksOk(nodes, links);
    var arr := InArrivals(EnvOf(nodes), links);
    assert IndexOf(nodes, links).incoming == AdjAfter(arr, |links|);
    AdjAfterShape(arr, |links|);
    forall j | 0 <= j < |links|
      ensures arr[j].resolved == Found(nodes, links, j) && arr[j].from == TgtKey(nodes, links, j) && arr[j].to == SrcKey(nodes, links, j)
    {
      OutArrivalsAt(nodes, links, j);
    }
  }

  /** The key `outgoing`'s guard tests for link j (`n0.key`), and `incoming`'s (`n1.key`). */
  lemma GuardsAt(nodes: seq<Node>, links: seq<Link>, j: nat)
    requires LinksOk(nodes, links) && j < |links|
    ensures AllLinksOk(EnvOf(nodes), links)
    ensures OutArrivals(EnvOf(nodes), links)[j].guard == PropName(EndKey(KeyedNodes(nodes), links[j].source))
    ensures InArrivals(EnvOf(nodes), links)[j].guard == PropName(EndKey(KeyedNodes(nodes), links[j].target))
    ensures links[j].source.InNodes? ==> OutArrivals(EnvOf(nodes), links)[j].guard == SrcKey(nodes, links, j)
    ensures links[j].target.InNodes? ==> InArrivals(EnvOf(nodes), links)[j].guard == TgtKey(nodes, links, j)
  {
    EnvLinksOk(nodes, links);
    if links[j].source.InNodes? {
      KeyedNodeKey(nodes, links[j].source.index);
    }
    if links[j].target.InNodes? {
      KeyedNodeKey(nodes, links[j].target.index);
    }
  }

  /** "undefined" is never a key of `outgoing` or `incoming`: every key there is a node key. */
  lemma UndefinedNeverEntered(nodes: seq<Node>, links: seq<Link>, n: nat)
    requires LinksOk(nodes, links) && n <= |links|
    ensures AllLinksOk(EnvOf(nodes), links)
    ensures Undefined !in AdjAfter(OutArrivals(EnvOf(nodes), links), n)
    ensures Undefined !in AdjAfter(InArrivals(EnvOf(nodes), links), n)
  {
    EnvLinksOk(nodes, links);
    var out, inc := OutArrivals(EnvOf(nodes), links), InArrivals(EnvOf(nodes), links);
    AdjAfterShape(out, n);
    AdjAfterShape(inc, n);
    NodesObjFirst(nodes, Undefined);
    forall p | 0 <= p < n && out[p].resolved
      ensures out[p].from != Undefined && inc[p].from != Undefined
    {
      OutArrivalsAt(nodes, links, p);
    }
  }

  /** readData_'s link loop throws: the `outgoing` or the `incoming` guard of some link is stale. */
  predicate LinkLoopThrows(nodes: seq<Node>, links: seq<Link>)
    requires LinksOk(nodes, links)
  {
    EnvLinksOk(nodes, links);
    var env := EnvOf(nodes);
    exists j :: 0 <= j < |links| && (GuardStale(OutArrivals(env, links), j) || GuardStale(InArrivals(env, links), j))
  }

  /**
   * Links whose ends point at their nodes or are raw `{id, type}` records without a `key` never
   * make the link loop throw: the guard is the key written to, or "undefined", which is never entered.
   */
  lemma FreshEndsNeverThrow(nodes: seq<Node>, links: seq<Link>)
    requires LinksOk(nodes, links)
    requires forall j :: 0 <= j < |links| ==> (links[j].source.Detached? ==> links[j].source.key.None?)
    requires forall j :: 0 <= j < |links| ==> (links[j].target.Detached? ==> links[j].target.key.None?)
    ensures !LinkLoopThrows(nodes, links)
  {
    EnvLinksOk(nodes, links);
    var env := EnvOf(nodes);
    forall j | 0 <= j < |links|
      ensures !GuardStale(OutArrivals(env, links), j) && !GuardStale(InArrivals(env, links), j)
    {
      OutArrivalsAt(nodes, links, j);
      GuardsAt(nodes, links, j);
      UndefinedNeverEntered(nodes, links, j);
    }
  }

  /**
   * The reset: a found link whose source is a raw `{id, type}` record (no `key`) resets its
   * source's entry, so when it is the last found link from that source the entry holds its
   * target alone, whatever earlier links entered.
   */
  lemma OutgoingRawReset(nodes: seq<Node>, links: seq<Link>, j: nat)
    requires LinksOk(nodes, links) && j < |links| && Found(nodes, links, j)
    requires links[j].source.Detached? && links[j].source.key.None?
    requires forall p :: j < p < |links| && Found(nodes, links, p) ==> SrcKey(nodes, links, p) != SrcKey(nodes, links, j)
    ensures var m := IndexOf(nodes, links).outgoing;
      SrcKey(nodes, links, j) in m && m[SrcKey(nodes, links, j)] == {TgtKey(nodes, links, j)}
  {
    EnvLinksOk(nodes, links);
    var arr := OutArrivals(EnvOf(nodes), links);
    assert IndexOf(nodes, links).outgoing == AdjAfter(arr, |links|);
    GuardsAt(nodes, links, j);
    UndefinedNeverEntered(nodes, links, j);
    OutArrivalsAt(nodes, links, j);
    forall p | j < p < |links|
      ensures !(arr[p].resolved && arr[p].from == arr[j].from)
    {
      OutArrivalsAt(nodes, links, p);
    }
    AdjAfterReset(arr, |links|, j);
  }

  /** The reset of `incoming`, for a found link whose target is a raw record. */
  lemma IncomingRawReset(nodes: seq<Node>, links: seq<Link>, j: nat)
    requires LinksOk(nodes, links) && j < |links| && Found(nodes, links, j)
    requires links[j].target.Detached? && links[j].target.key.None?
    requires forall p :: j < p < |links| && Found(nodes, links, p) ==> TgtKey(nodes, links, p) != TgtKey(nodes, links, j)
    ensures var m := IndexOf(nodes, links).incoming;
      TgtKey(nodes, links, j) in m && m[TgtKey(nodes, links, j)] == {SrcKey(nodes, links, j)}
  {
    EnvLinksOk(nodes, links);
    var arr := InArrivals(EnvOf(nodes), links);
    assert IndexOf(nodes, links).incoming == AdjAfter(arr, |links|);
    GuardsAt(nodes, links, j);
    UndefinedNeverEntered(nodes, links, j);
    OutArrivalsAt(nodes, links, j);
    forall p | j < p < |links|
      ensures !(arr[p].resolved && arr[p].from == arr[j].from)
    {
      OutArrivalsAt(nodes, links, p);
    }
    AdjAfterReset(arr, |links|, j);
  }

  /**
   * When every found link already points at its nodes, as readData_ leaves the links it finds,
   * the guard tests the key it guards and `outgoing` is exact: each source key maps to the
   * target keys of all found links from it.
   */
  lemma OutgoingExact(nodes: seq<Node>, links: seq<Link>, k: string)
    requires LinksOk(nodes, links)
    requires forall j :: 0 <= j < |links| && Found(nodes, links, j) ==> links[j].source.InNodes?
    ensures var m := IndexOf(nodes, links).outgoing;
      k in m ==> forall t :: t in m[k] <==>
        exists j :: 0 <= j < |links| && Found(nodes, links, j) && SrcKey(nodes, links, j) == k && TgtKey(nodes, links, j) == t
  {
    EnvLinksOk(nodes, links);
    var arr := OutArrivals(EnvOf(nodes), links);
    assert IndexOf(nodes, links).outgoing == AdjAfter(arr, |links|);
    forall j | 0 <= j < |links|
      ensures arr[j].resolved == Found(nodes, links, j) && arr[j].from == SrcKey(nodes, links, j) && arr[j].to == TgtKey(nodes, links, j)
      ensures arr[j].resolved ==> arr[j].guard == arr[j].from
    {
      OutArrivalsAt(nodes, links, j);
      GuardsAt(nodes, links, j);
    }
    AdjAfterAccumulates(arr, |links|);
  }

  /** The same for `incoming` when every found link's target points at its node. */
  lemma IncomingExact(nodes: seq<Node>, links: seq<Link>, k: string)
    requires LinksOk(nodes, links)
    requires forall j :: 0 <= j < |links| && Found(nodes, links, j) ==> links[j].target.InNodes?
    ensures var m := IndexOf(nodes, links).incoming;
      k in m ==> forall s :: s in m[k] <==>
        exists j :: 0 <= j < |links| && Found(nodes, links, j) && TgtKey(nodes, links, j) == k && SrcKey(nodes, links, j) == s
  {
    EnvLinksOk(nodes, links);
    var arr := InArrivals(EnvOf(nodes), links);
    assert IndexOf(nodes, links).incoming == AdjAfter(arr, |links|);
    forall j | 0 <= j < |links|
      ensures arr[j].resolved == Found(nodes, links, j) && arr[j].from == TgtKey(nodes, links, j) && arr[j].to == SrcKey(nodes, links, j)
      ensures arr[j].resolved ==> arr[j].guard == arr[j].from
    {
      OutArrivalsAt(nodes, links, j);
      GuardsAt(nodes, links, j);
    }
    AdjAfterAccumulates(arr, |links|);
  }

  /** The key readData_ gives link j: `n0Key_n1Key_etypeIndex`. */
  function LinkKey(nodes: seq<Node>, links: seq<Link>, j: nat): string
    requires LinksOk(nodes, links) && j < |links|
  {
    EnvLinksOk(nodes, links);
    LinkKeyAt(EnvOf(nodes), links, j)
  }

  /** Every link carries the key readData_ gives it. */
  lemma LinkKeysCarried(nodes: seq<Node>, links: seq<Link>)
    requires LinksOk(nodes, links)
    ensures var g := IndexOf(nodes, links);
      |g.links| == |links| && forall j :: 0 <= j < |links| ==> g.links[j].key == Some(LinkKey(nodes, links, j))
  {
    IndexLinks(nodes, links);
    forall j | 0 <= j < |links|
      ensures IndexOf(nodes, links).links[j].key == Some(LinkKey(nodes, links, j))
    {
      ProcessedLinkFacts(nodes, links, j);
    }
  }

  /** The names the link registry is built from are the link keys. */
  lemma LinkKeyNamesAt(nodes: seq<Node>, links: seq<Link>)
    requires LinksOk(nodes, links)
    ensures AllLinksOk(EnvOf(nodes), links)
    ensures var names := LinkKeyNames(EnvOf(nodes), links);
      |names| == |links| && forall j :: 0 <= j < |links| ==> names[j] == LinkKey(nodes, links, j)
  {
    EnvLinksOk(nodes, links);
  }

  /** `linksObj` holds exactly the link keys, each mapped to the first link carrying it. */
  lemma LinksObjMeaning(nodes: seq<Node>, links: seq<Link>, k: string)
    requires LinksOk(nodes, links)
    ensures var obj := IndexOf(nodes, links).linksObj;
      && (k in obj <==> exists j :: 0 <= j < |links| && LinkKey(nodes, links, j) == k)
      && (k in obj ==> obj[k] < |links| && LinkKey(nodes, links, obj[k]) == k)
      && (k in obj ==> forall p :: 0 <= p < obj[k] ==> LinkKey(nodes, links, p) != k)
  {
    LinkKeyNamesAt(nodes, links);
    var names := LinkKeyNames(EnvOf(nodes), links);
    assert IndexOf(nodes, links).linksObj == Registry(names, |links|);
    RegistryFirst(names, |links|);
  }

  /**
   * `linkKeys`, the key order of `linksObj`, lists each key of `linksObj` once, in the order of
   * the first links carrying them.
   */
  lemma LinkKeysOrder(nodes: seq<Node>, links: seq<Link>, k: string)
    requires LinksOk(nodes, links)
    ensures var g := IndexOf(nodes, links);
      && (k in g.linkKeys <==> k in g.linksObj)
      && (forall a, b :: 0 <= a < b < |g.linkKeys| ==>
            g.linkKeys[a] in g.linksObj && g.linkKeys[b] in g.linksObj && g.linksObj[g.linkKeys[a]] < g.linksObj[g.linkKeys[b]])
  {
    LinkKeyNamesAt(nodes, links);
    var names := LinkKeyNames(EnvOf(nodes), links);
    var g := IndexOf(nodes, links);
    assert g.linksObj == Registry(names, |links|) && g.linkKeys == FirstOrder(names, |links|);
    FirstOrderFacts(names, |links|);
  }

  /** Every etype is registered in `linkTypesMap`, at its first link. */
  lemma EtypeRegistered(links: seq<Link>, j: nat)
    requires j < |links|
    ensures PropName(links[j].etype) in LinkTypesMap(links)
    ensures forall e :: e in LinkTypesMap(links) ==> LinkTypesMap(links)[e] < |links| && PropName(links[LinkTypesMap(links)[e]].etype) == e
  {
    RegistryFirst(EtypeNames(links), |links|);
    assert EtypeNames(links)[j] == PropName(links[j].etype);
  }

  /** A link key read as source key, then target key and etype index. */
  lemma LinkKeyParts(nodes: seq<Node>, links: seq<Link>, j: nat)
    requires LinksOk(nodes, links) && j < |links|
    ensures PropName(links[j].etype) in LinkTypesMap(links)
    ensures LinkKey(nodes, links, j) ==
      PairKey(SrcKey(nodes, links, j), PairKey(TgtKey(nodes, links, j), KeyPart(Some(LinkTypesMap(links)[PropName(links[j].etype)]))))
    ensures LinkSep !in SrcKey(nodes, links, j) && LinkSep !in TgtKey(nodes, links, j)
  {
    EtypeRegistered(links, j);
    EnvLinksOk(nodes, links);
    var env := EnvOf(nodes);
    var a, b := N0Key(env, links[j]), N1Key(env, links[j]);
    var e := PropName(links[j].etype);
    var x := KeyPart(Get(LinkTypesMap(links), e));
    assert x == KeyPart(Some(LinkTypesMap(links)[e]));
    assert LinkKey(nodes, links, j) == PairKey(PairKey(a, b), x);
    PairKeyAssoc(a, b, x);
  }

  /** Two links get the same key exactly when they have the same source key, target key and etype. */
  lemma LinkKeyInjective(nodes: seq<Node>, links: seq<Link>, i: nat, j: nat)
    requires LinksOk(nodes, links) && i < |links| && j < |links|
    ensures LinkKey(nodes, links, i) == LinkKey(nodes, links, j) <==>
      && SrcKey(nodes, links, i) == SrcKey(nodes, links, j)
      && TgtKey(nodes, links, i) == TgtKey(nodes, links, j)
      && PropName(links[i].etype) == PropName(links[j].etype)
  {
    var a, b := SrcKey(nodes, links, i), TgtKey(nodes, links, i);
    var c, d := SrcKey(nodes, links, j), TgtKey(nodes, links, j);
    var ei, ej := PropName(links[i].etype), PropName(links[j].etype);
    var types := LinkTypesMap(links);
    EtypeRegistered(links, i);
    EtypeRegistered(links, j);
    var x, y := KeyPart(Some(types[ei])), KeyPart(Some(types[ej]));
    LinkKeyParts(nodes, links, i);
    LinkKeyParts(nodes, links, j);
    PairKeyInjective(a, PairKey(b, x), c, PairKey(d, y));
    PairKeyInjective(b, x, d, y);
    KeyPartInjective(Some(types[ei]), Some(types[ej]));
    RegistryInjective(EtypeNames(links), |links|, ei, ej);
  }

  /**
   * The buckets readData_ leaves are the pair counts of the endpoint keys its links show, and
   * they count every link once.
   */
  lemma IndexBuckets(nodes: seq<Node>, links: seq<Link>)
    requires LinksOk(nodes, links)
    ensures var g, ends := IndexOf(nodes, links), IndexEnds(nodes, links);
      g.multiLinksNumCoord == PairCounts(ends) && SumValues(g.multiLinksNumCoord) == |links|
  {
    IndexLinks(nodes, links);
    var ends := IndexEnds(nodes, links);
    BucketCountsSum(ends, |ends|);
  }

  /** A record `{id, type, key}`, as isConnected builds them for isConnected_. */
  datatype Probe = Probe(id: Option<string>, nodeType: Option<string>, key: string)

  /** The record isConnected builds: the key comes from the registries, "undefined" for an unregistered part. */
  function ProbeOf(g: Indexed, id: Option<string>, nodeType: Option<string>): Probe
  {
    Probe(id, nodeType, NodeKeyOf(g.nodeIDsMap, g.nodeTypesMap, id, nodeType))
  }

  /**
   * `isConnected_`: false when an id or a type is undefined; otherwise true for equal keys, and
   * else whether `connectedMap` holds the pair in either orientation.
   */
  function IsConnectedIn(connectedMap: map<string, nat>, n1: Probe, n2: Probe): bool
  {
    if n1.id.Some? && n1.nodeType.Some? && n2.id.Some? && n2.nodeType.Some? then
      n1.key == n2.key || PairKey(n1.key, n2.key) in connectedMap || PairKey(n2.key, n1.key) in connectedMap
    else false
  }

  /** The endpoint keys of a link's source and target hold no `_`. */
  lemma EndKeysClean(nodes: seq<Node>, links: seq<Link>, j: nat)
    requires LinksOk(nodes, links) && j < |links|
    ensures LinkSep !in SrcKey(nodes, links, j) && LinkSep !in TgtKey(nodes, links, j)
  {
    EnvLinksOk(nodes, links);
  }

  /**
   * After readData_, isConnected_ on two records with `_`-free keys is true exactly when all
   * four ids and types are defined and either the keys are equal or some link, found or not,
   * joins the two keys in one direction or the other; so it does not depend on the order of
   * its arguments.
   */
  lemma IsConnectedMeaning(nodes: seq<Node>, links: seq<Link>, a: Probe, b: Probe)
    requires LinksOk(nodes, links) && LinkSep !in a.key && LinkSep !in b.key
    ensures var m := IndexOf(nodes, links).connectedMap;
      IsConnectedIn(m, a, b) <==>
        && a.id.Some? && a.nodeType.Some? && b.id.Some? && b.nodeType.Some?
        && (|| a.key == b.key
            || exists j :: 0 <= j < |links| &&
                 ((SrcKey(nodes, links, j) == a.key && TgtKey(nodes, links, j) == b.key) ||
                  (SrcKey(nodes, links, j) == b.key && TgtKey(nodes, links, j) == a.key)))
    ensures var m := IndexOf(nodes, links).connectedMap; IsConnectedIn(m, a, b) == IsConnectedIn(m, b, a)
  {
    ConnectedMapMeaning(nodes, links, PairKey(a.key, b.key));
    ConnectedMapMeaning(nodes, links, PairKey(b.key, a.key));
    forall j | 0 <= j < |links|
      ensures LinkPair(nodes, links, j) == PairKey(a.key, b.key) <==> SrcKey(nodes, links, j) == a.key && TgtKey(nodes, links, j) == b.key
      ensures LinkPair(nodes, links, j) == PairKey(b.key, a.key) <==> SrcKey(nodes, links, j) == b.key && TgtKey(nodes, links, j) == a.key
    {
      EndKeysClean(nodes, links, j);
      PairKeyInjective(SrcKey(nodes, links, j), TgtKey(nodes, links, j), a.key, b.key);
      PairKeyInjective(SrcKey(nodes, links, j), TgtKey(nodes, links, j), b.key, a.key);
    }
  }

  /** The keys isConnected builds hold no `_`. */
  lemma ProbeOfClean(g: Indexed, id: Option<string>, nodeType: Option<string>)
    ensures LinkSep !in ProbeOf(g, id, nodeType).key
  {
  }

  /**
   * Two defined ids neither of which is registered, with unregistered types, give the same key
   * `undefined-undefined`, so isConnected answers true for them.
   */
  lemma IsConnectedUnregistered(g: Indexed, id1: string, t1: string, id2: string, t2: string)
    requires id1 !in g.nodeIDsMap && id2 !in g.nodeIDsMap && t1 !in g.nodeTypesMap && t2 !in g.nodeTypesMap
    ensures ProbeOf(g, Some(id1), Some(t1)).key == ProbeOf(g, Some(id2), Some(t2)).key == NodeKey(None, None)
    ensures IsConnectedIn(g.connectedMap, ProbeOf(g, Some(id1), Some(t1)), ProbeOf(g, Some(id2), Some(t2)))
  {
  }
}

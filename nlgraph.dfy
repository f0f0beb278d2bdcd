/**
 * The data side of the NLGraph object of src/NLGraph.js: the `nodes` and `links` arrays, the
 * tables `readData_` (709-873) assigns to the object, and the queries and edits over them.
 * Every edit changes the arrays and then rebuilds all tables with `readData_`.
 */
module Graph {
  import opened Wrappers
  import opened Util
  import opened Keys
  import opened GraphData
  import opened NodeIndex
  import opened LinkIndex
  import opened LinkRanks
  import opened GraphIndex
  import opened GraphQueries
  import opened GraphEdits

  /** The object's tables before `readData_` first runs: none is defined, so every for-in over one is empty. */
  const NoTables: Indexed := Indexed([], [], map[], map[], map[], map[], [], map[], map[], map[], map[], map[])

  class NLGraph {
    var nodes: seq<Node>
    var links: seq<Link>
    /**
     * What `readData_` assigns to the object in one go (src/NLGraph.js:857-870): the arrays,
     * `nodeIDsMap`, `nodeTypesMap`, `linkTypesMap`, `nodesObj`, `linksObj` with its key order,
     * `connectedMap`, `incomingNodes`, `outgoingNodes` and `multiLinksNumCoord`.
     */
    var index: Indexed

    /** Whether `readData_` has run, so that `nodeIDsMap` and the other tables exist on the object. */
    var tablesRead: bool

    /** The arrays `readData_` was last given. */
    ghost var dataNodes: seq<Node>
    ghost var dataLinks: seq<Link>

    /** Link endpoints refer into `nodes`, and no key on an endpoint outside `nodes` holds a `_`. */
    predicate Wellformed()
      reads this
    {
      LinksOk(nodes, links) && CleanKeys(links)
    }

    /** The object holds exactly what `readData_` computes from the arrays it was last given. */
    ghost predicate Valid()
      reads this
    {
      && LinksOk(dataNodes, dataLinks) && CleanKeys(dataLinks)
      && index == IndexOf(dataNodes, dataLinks)
      && nodes == index.nodes && links == index.links
      && tablesRead
    }

    /**
     * Every state the object can be in: just constructed, with no tables yet, or holding what
     * `readData_` computed.
     */
    ghost predicate Ready()
      reads this
    {
      Valid() || (!tablesRead && index == NoTables)
    }

    /** `this.nodes = n; this.links = l;` before anything is read. */
    constructor (n: seq<Node>, l: seq<Link>)
      ensures nodes == n && links == l && !tablesRead && index == NoTables
      ensures Ready()
    {
      nodes, links := n, l;
      tablesRead := false;
      index := NoTables;
      dataNodes, dataLinks := [], [];
    }

    /** `readData_`: compute every table from the arrays, then assign them all to the object. */
    method ReadData(ns: seq<Node>, ls: seq<Link>)
      requires LinksOk(ns, ls) && CleanKeys(ls)
      modifies this
      ensures Valid() && dataNodes == ns && dataLinks == ls
    {
      // The tables are IndexOf by ReadTables' contract; its body is not needed here.
      hide IndexOf;
      var g := ReadTables(ns, ls);
      nodes, links, index, tablesRead := g.nodes, g.links, g, true;
      dataNodes, dataLinks := ns, ls;
    }

    /** The body of `readData_` up to the assignments: key the nodes, read the links, bucket and rank them. */
    static method ReadTables(ns: seq<Node>, ls: seq<Link>) returns (g: Indexed)
      requires LinksOk(ns, ls) && CleanKeys(ls)
      ensures g == IndexOf(ns, ls)
    {
      var keyed, ids, types := KeyNodes(ns);
      var obj := BuildNodesObj(keyed);
      var env := Env(keyed, ids, types, obj);
      assert env == EnvOf(ns);
      EnvLinksOk(ns, ls);
      var t := ReadLinks(env, ls);
      ProcessedLinksOk(ns, ls);
      var counts := CountPairs(keyed, t.links);
      var ranked := RankLinks(keyed, t.links, counts);
      g := Indexed(keyed, ranked, ids, types, t.linkTypesMap, obj, t.linkKeys, t.linksObj,
        t.connectedMap, t.incoming, t.outgoing, counts);
    }

    /** The tables of `readData_` are well formed for the queries and edits. */
    static lemma IndexedTables(ns: seq<Node>, ls: seq<Link>)
      requires LinksOk(ns, ls) && CleanKeys(ls)
      ensures var g := IndexOf(ns, ls); LinksOk(g.nodes, g.links) && CleanKeys(g.links) && CleanNodes(g.nodes) && TablesOk(g)
    {
      var g := IndexOf(ns, ls);
      IndexLinks(ns, ls);
      forall k | k in g.linksObj
        ensures k in g.linkKeys && g.linksObj[k] < |g.links|
      {
        LinkKeysOrder(ns, ls, k);
        LinksObjMeaning(ns, ls, k);
      }
      forall k | k in g.linkKeys
        ensures k in g.linksObj
      {
        LinkKeysOrder(ns, ls, k);
      }
      forall i | 0 <= i < |ns|
        ensures g.nodes[i].key.Some? && LinkSep !in g.nodes[i].key.value
      {
        KeyedNodeKey(ns, i);
      }
    }

    /**
     * `isConnected`: it reads `nodeIDsMap` first, so before the tables are read it throws a
     * TypeError. After, it is false when an id or a type is undefined, and otherwise true exactly
     * when the two keys built from the registries are equal or some link runs between them,
     * either way round.
     */
    function IsConnected(n1Id: Option<string>, n1Type: Option<string>, n2Id: Option<string>, n2Type: Option<string>): (r: Outcome<bool>)
      reads this
      requires Ready()
      ensures r.TypeError? <==> !tablesRead
      ensures tablesRead ==>
        (var a, b := ProbeOf(index, n1Id, n1Type).key, ProbeOf(index, n2Id, n2Type).key;
         && r.Returned?
         && (r.value <==>
              && n1Id.Some? && n1Type.Some? && n2Id.Some? && n2Type.Some?
              && (|| a == b
                  || exists j :: 0 <= j < |dataLinks| &&
                       ((SrcKey(dataNodes, dataLinks, j) == a && TgtKey(dataNodes, dataLinks, j) == b) ||
                        (SrcKey(dataNodes, dataLinks, j) == b && TgtKey(dataNodes, dataLinks, j) == a)))))
    {
      if !tablesRead then TypeError
      else
        var n1, n2 := ProbeOf(index, n1Id, n1Type), ProbeOf(index, n2Id, n2Type);
        ProbeOfClean(index, n1Id, n1Type);
        ProbeOfClean(index, n2Id, n2Type);
        IsConnectedMeaning(dataNodes, dataLinks, n1, n2);
        Returned(IsConnectedIn(index.connectedMap, n1, n2))
    }

    /**
     * `hasOutgoingConnections`: the node's key is a key of `index.outgoing`, which holds when some
     * link whose two endpoint keys are node keys starts at that key.
     */
    method HasOutgoingConnections(nodeId: Option<string>, nodeType: Option<string>) returns (r: bool)
      requires Ready()
      ensures !tablesRead ==> !r
      ensures var key := NodeKeyOf(index.nodeIDsMap, index.nodeTypesMap, nodeId, nodeType);
        && (r <==> key in index.outgoing)
        && (tablesRead ==>
              (r <==> exists j :: 0 <= j < |dataLinks| && Found(dataNodes, dataLinks, j) && SrcKey(dataNodes, dataLinks, j) == key))
    {
      var key := NodeKeyOf(index.nodeIDsMap, index.nodeTypesMap, nodeId, nodeType);
      if tablesRead {
        OutgoingMeaning(dataNodes, dataLinks, key);
      }
      var rest := index.outgoing.Keys;
      while rest != {}
        invariant rest <= index.outgoing.Keys
        invariant key in index.outgoing ==> key in rest
        decreases |rest|
      {
        var fromKey :| fromKey in rest;
        if fromKey == key {
          return true;
        }
        rest := rest - {fromKey};
      }
      return false;
    }

    /** `hasIncomingConnections`: as `hasOutgoingConnections`, with `index.incoming` and link targets. */
    method HasIncomingConnections(nodeId: Option<string>, nodeType: Option<string>) returns (r: bool)
      requires Ready()
      ensures !tablesRead ==> !r
      ensures var key := NodeKeyOf(index.nodeIDsMap, index.nodeTypesMap, nodeId, nodeType);
        && (r <==> key in index.incoming)
        && (tablesRead ==>
              (r <==> exists j :: 0 <= j < |dataLinks| && Found(dataNodes, dataLinks, j) && TgtKey(dataNodes, dataLinks, j) == key))
    {
      var key := NodeKeyOf(index.nodeIDsMap, index.nodeTypesMap, nodeId, nodeType);
      if tablesRead {
        IncomingMeaning(dataNodes, dataLinks, key);
      }
      var rest := index.incoming.Keys;
      while rest != {}
        invariant rest <= index.incoming.Keys
        invariant key in index.incoming ==> key in rest
        decreases |rest|
      {
        var toKey :| toKey in rest;
        if toKey == key {
          return true;
        }
        rest := rest - {toKey};
      }
      return false;
    }

    /** `hasConnections`: some link has the node's id and type at its source or at its target. */
    method HasConnections(nodeId: Option<string>, nodeType: Option<string>) returns (r: bool)
      requires LinksOk(nodes, links)
      ensures r <==> exists j :: 0 <= j < |links| && Touches(nodes, links[j], nodeId, nodeType)
    {
      var i := 0;
      while i < |links|
        invariant 0 <= i <= |links|
        invariant forall p :: 0 <= p < i ==> !Touches(nodes, links[p], nodeId, nodeType)
      {
        if Touches(nodes, links[i], nodeId, nodeType) {
          return true;
        }
        i := i + 1;
      }
      return false;
    }

    /**
     * `getAssociatedLinks`: in the key order of `index.linksObj`, the index.links it keeps that have the
     * node's id and type at an end, and all of them.
     */
    method GetAssociatedLinks(nodeId: Option<string>, nodeType: Option<string>) returns (resLinks: seq<Link>)
      requires TablesOk(index)
      ensures resLinks == AssociatedLinks(index, nodeId, nodeType, |index.linkKeys|)
      ensures forall l :: l in resLinks ==>
        exists k :: k in index.linksObj && index.links[index.linksObj[k]] == l && Touches(index.nodes, index.links[index.linksObj[k]], nodeId, nodeType)
      ensures forall k :: k in index.linksObj && Touches(index.nodes, index.links[index.linksObj[k]], nodeId, nodeType) ==> index.links[index.linksObj[k]] in resLinks
    {
      resLinks := [];
      var i := 0;
      while i < |index.linkKeys|
        invariant 0 <= i <= |index.linkKeys|
        invariant resLinks == AssociatedLinks(index, nodeId, nodeType, i)
      {
        var l := index.links[index.linksObj[index.linkKeys[i]]];
        assert l == KeyedLink(index, i);
        if Touches(index.nodes, l, nodeId, nodeType) {
          resLinks := resLinks + [l];
        }
        i := i + 1;
      }
      AssociatedLinksFacts(nodeId, nodeType);
    }

    lemma AssociatedLinksFacts(nodeId: Option<string>, nodeType: Option<string>)
      requires TablesOk(index)
      ensures var r := AssociatedLinks(index, nodeId, nodeType, |index.linkKeys|);
        && (forall l :: l in r ==> exists k :: k in index.linksObj && index.links[index.linksObj[k]] == l && Touches(index.nodes, index.links[index.linksObj[k]], nodeId, nodeType))
        && (forall k :: k in index.linksObj && Touches(index.nodes, index.links[index.linksObj[k]], nodeId, nodeType) ==> index.links[index.linksObj[k]] in r)
    {
      var g := index;
      var r := AssociatedLinks(g, nodeId, nodeType, |index.linkKeys|);
      AssociatedLinksMeaning(g, nodeId, nodeType, |index.linkKeys|);
      forall l | l in r
        ensures exists k :: k in index.linksObj && index.links[index.linksObj[k]] == l && Touches(index.nodes, index.links[index.linksObj[k]], nodeId, nodeType)
      {
        var i :| 0 <= i < |index.linkKeys| && KeyedLink(g, i) == l && Touches(g.nodes, l, nodeId, nodeType);
        assert index.linkKeys[i] in index.linkKeys;
      }
      forall k | k in index.linksObj && Touches(index.nodes, index.links[index.linksObj[k]], nodeId, nodeType)
        ensures index.links[index.linksObj[k]] in r
      {
        var i :| 0 <= i < |index.linkKeys| && index.linkKeys[i] == k;
        assert KeyedLink(g, i) == index.links[index.linksObj[k]];
      }
    }

    /**
     * `getAssociatedNodes`: the other ends of the index.links `index.linksObj` keeps that have the node at an
     * end, one per key: no two collected endpoints share a key, and every such other end has its
     * key among them.
     */
    method GetAssociatedNodes(nodeId: Option<string>, nodeType: Option<string>) returns (resNodes: seq<Endpoint>)
      requires TablesOk(index)
      ensures resNodes == AssociatedNodes(index, nodeId, nodeType, |index.linkKeys|)
      ensures DistinctEndKeys(index.nodes, resNodes)
      ensures forall e :: e in resNodes ==> exists k :: k in index.linksObj && Neighbour(index.nodes, index.links[index.linksObj[k]], nodeId, nodeType, e)
      ensures forall k, e :: k in index.linksObj && Neighbour(index.nodes, index.links[index.linksObj[k]], nodeId, nodeType, e) ==> HasKey(index.nodes, resNodes, EndKey(index.nodes, e))
    {
      resNodes := [];
      var i := 0;
      while i < |index.linkKeys|
        invariant 0 <= i <= |index.linkKeys|
        invariant resNodes == AssociatedNodes(index, nodeId, nodeType, i)
      {
        var l := index.links[index.linksObj[index.linkKeys[i]]];
        assert l == KeyedLink(index, i);
        if nodeId == EndId(index.nodes, l.source) && nodeType == EndType(index.nodes, l.source) {
          if !HasKey(index.nodes, resNodes, EndKey(index.nodes, l.target)) {
            resNodes := resNodes + [l.target];
          }
        }
        if nodeId == EndId(index.nodes, l.target) && nodeType == EndType(index.nodes, l.target) {
          if !HasKey(index.nodes, resNodes, EndKey(index.nodes, l.source)) {
            resNodes := resNodes + [l.source];
          }
        }
        i := i + 1;
      }
      AssociatedNodesFacts(nodeId, nodeType);
    }

    lemma AssociatedNodesFacts(nodeId: Option<string>, nodeType: Option<string>)
      requires TablesOk(index)
      ensures var r := AssociatedNodes(index, nodeId, nodeType, |index.linkKeys|);
        && DistinctEndKeys(index.nodes, r)
        && (forall e :: e in r ==> exists k :: k in index.linksObj && Neighbour(index.nodes, index.links[index.linksObj[k]], nodeId, nodeType, e))
        && (forall k, e :: k in index.linksObj && Neighbour(index.nodes, index.links[index.linksObj[k]], nodeId, nodeType, e) ==> HasKey(index.nodes, r, EndKey(index.nodes, e)))
    {
      var g := index;
      var r := AssociatedNodes(g, nodeId, nodeType, |index.linkKeys|);
      AssociatedNodesMeaning(g, nodeId, nodeType, |index.linkKeys|);
      forall e | e in r
        ensures exists k :: k in index.linksObj && Neighbour(index.nodes, index.links[index.linksObj[k]], nodeId, nodeType, e)
      {
        var i :| 0 <= i < |index.linkKeys| && Neighbour(g.nodes, KeyedLink(g, i), nodeId, nodeType, e);
        assert index.linkKeys[i] in index.linkKeys;
      }
      forall k, e | k in index.linksObj && Neighbour(index.nodes, index.links[index.linksObj[k]], nodeId, nodeType, e)
        ensures HasKey(index.nodes, r, EndKey(index.nodes, e))
      {
        var i :| 0 <= i < |index.linkKeys| && index.linkKeys[i] == k;
        assert KeyedLink(g, i) == index.links[index.linksObj[k]];
      }
    }

    /**
     * `addNode`: unless a stored node equals `{id, type, attr}`, push the node with its style
     * defaults and one link per associated edge, then rebuild.
     */
    method AddNode(id: Option<string>, nodeType: Option<string>, attrObj: Json, styleObj: Json, assoEdges: seq<EdgeSpec>)
      requires Wellformed()
      requires !IsNullish(styleObj) && forall j :: 0 <= j < |assoEdges| ==> !IsNullish(assoEdges[j].style)
      modifies this
      ensures old(HasNode(nodes, id, nodeType, attrObj)) ==> unchanged(this)
      ensures !old(HasNode(nodes, id, nodeType, attrObj)) ==>
        && Valid()
        && dataNodes == old(nodes) + [NewNode(id, nodeType, attrObj, styleObj)]
        && dataLinks == old(links) + NewLinks(assoEdges)
    {
      hide IndexOf;
      var fakeObj := Probe3(id, nodeType, attrObj);
      var i := 0;
      while i < |nodes| && !ObjectEquals(fakeObj, NodeProps(nodes[i]))
        invariant 0 <= i <= |nodes|
        invariant forall p :: 0 <= p < i ==> !ObjectEquals(fakeObj, NodeProps(nodes[p]))
      {
        i := i + 1;
      }
      if i < |nodes| {
        return;
      }
      ghost var links0 := links;
      LinksOkGrow(nodes, links, [NewNode(id, nodeType, attrObj, styleObj)]);
      nodes := nodes + [NewNode(id, nodeType, attrObj, styleObj)];
      NewLinksOk(nodes, links, assoEdges);
      var j := 0;
      while j < |assoEdges|
        invariant 0 <= j <= |assoEdges|
        invariant nodes == old(nodes) + [NewNode(id, nodeType, attrObj, styleObj)]
        invariant links == links0 + NewLinks(assoEdges[..j])
      {
        links := links + [NewLink(assoEdges[j])];
        assert NewLinks(assoEdges[..j + 1]) == NewLinks(assoEdges[..j]) + [NewLink(assoEdges[j])];
        j := j + 1;
      }
      assert assoEdges[..|assoEdges|] == assoEdges;
      ReadData(nodes, links);
    }

    /** `addEdge`: unless an equal link exists, push one link with the style defaults and rebuild. */
    method AddEdge(e: EdgeSpec)
      requires Wellformed() && !IsNullish(e.style)
      modifies this
      ensures old(HasEdge(nodes, links, e)) ==> unchanged(this)
      ensures !old(HasEdge(nodes, links, e)) ==> Valid() && dataNodes == old(nodes) && dataLinks == old(links) + [NewLink(e)]
    {
      hide IndexOf;
      var i := 0;
      while i < |links| && !SameEdge(nodes, links[i], e)
        invariant 0 <= i <= |links|
        invariant forall p :: 0 <= p < i ==> !SameEdge(nodes, links[p], e)
      {
        i := i + 1;
      }
      if i < |links| {
        return;
      }
      NewLinksOk(nodes, links, [e]);
      assert NewLinks([e]) == [NewLink(e)];
      links := links + [NewLink(e)];
      ReadData(nodes, links);
    }

    /**
     * `removeNode`: find the first node whose key is the key built from the registries; if there
     * is one, splice it out, splice the links that touch it (skipping the link after each one
     * spliced) and rebuild. Before the first `readData_` the object has no `nodeIDsMap`, and
     * reading an entry of it throws a TypeError; `thrown` reports that outcome.
     */
    method RemoveNode(id: Option<string>, nodeType: Option<string>) returns (thrown: bool)
      requires tablesRead ==> Wellformed()
      modifies this
      ensures thrown == !old(tablesRead)
      ensures thrown ==> unchanged(this)
      ensures !thrown ==>
        var r := FirstIndex(NodeKeys(old(nodes)), Some(NodeKeyOf(old(index.nodeIDsMap), old(index.nodeTypesMap), id, nodeType)));
        && (r < 0 ==> unchanged(this))
        && (r >= 0 ==>
              && Valid()
              && dataNodes == Without(old(nodes), r)
              && dataLinks == SkipSplice(dataNodes, RemapLinks(old(nodes), r, old(links)), id, nodeType, 0))
    {
      hide IndexOf;
      thrown := !tablesRead;
      if thrown {
        return;
      }
      var key := NodeKeyOf(index.nodeIDsMap, index.nodeTypesMap, id, nodeType);
      var removeIdx := FirstIndex(NodeKeys(nodes), Some(key));
      if removeIdx == -1 {
        return;
      }
      RemapClean(nodes, removeIdx, links);
      var ns, ls := Without(nodes, removeIdx), RemapLinks(nodes, removeIdx, links);
      nodes, links := ns, ls;
      var i := 0;
      while i < |links|
        invariant nodes == ns
        invariant LinksOk(nodes, links) && CleanKeys(links)
        invariant SkipSplice(nodes, links, id, nodeType, i) == SkipSplice(ns, ls, id, nodeType, 0)
        decreases |links| - i
      {
        if Touches(nodes, links[i], id, nodeType) {
          links := Without(links, i);
        }
        i := i + 1;
      }
      ReadData(nodes, links);
    }

    /**
     * `removeEdge`: splice the first link whose key is the key built from the registries, if any,
     * and rebuild. Before the first `readData_` reading `nodeIDsMap` throws a TypeError, reported
     * in `thrown`.
     */
    method RemoveEdge(srcId: Option<string>, srcType: Option<string>, tgtId: Option<string>, tgtType: Option<string>, etype: Option<string>)
      returns (thrown: bool)
      requires tablesRead ==> Wellformed()
      modifies this
      ensures thrown == !old(tablesRead)
      ensures thrown ==> unchanged(this)
      ensures !thrown ==>
        var e := EdgeSpec(srcId, srcType, tgtId, tgtType, etype, JUndefined, JUndefined, JUndefined);
        var r := FirstIndex(LinkKeyList(old(links)), Some(EdgeKey(old(index), e)));
        && (r < 0 ==> unchanged(this))
        && (r >= 0 ==> Valid() && dataNodes == old(nodes) && dataLinks == Without(old(links), r))
    {
      hide IndexOf;
      thrown := !tablesRead;
      if thrown {
        return;
      }
      var e := EdgeSpec(srcId, srcType, tgtId, tgtType, etype, JUndefined, JUndefined, JUndefined);
      var removeIdx := FirstIndex(LinkKeyList(links), Some(EdgeKey(index, e)));
      if removeIdx == -1 {
        return;
      }
      links := Without(links, removeIdx);
      ReadData(nodes, links);
    }
  }
}

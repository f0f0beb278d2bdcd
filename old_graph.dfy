/**
 * The data side of the NLGraph object of the earlier engine, src/NLGraph-old.js: the `nodes` and
 * `links` arrays, the tables `readData_` (603-737) assigns to the object, and the queries and
 * edits over them. Nodes are keyed by their plain `id-type` string rather than by registry
 * positions, and every edit again rebuilds all tables with `readData_`.
 */
module GraphOld {
  import opened Wrappers
  import opened Util
  import opened Keys
  import opened GraphData
  import opened OldKeys
  import opened OldIndex
  import opened OldQueries
  import opened GraphQueries
  import opened GraphEdits

  /** The object's tables before `readData_` first runs: none is defined, so every for-in over one is empty. */
  const NoOldTables: OldIndexed := OldIndexed([], [], map[], map[], {}, map[], map[], map[])

  class OldGraph {
    var nodes: seq<Node>
    var links: seq<Link>
    /**
     * What `readData_` assigns to the object (src/NLGraph-old.js:722-732): the arrays,
     * `nodesObj`, `linksObj`, `connectedDict`, `incomingNodes`, `outgoingNodes` and
     * `multiLinksTotalNumDict`.
     */
    var index: OldIndexed
    /** Whether `readData_` has run, so that the tables are defined on the object. */
    var tablesRead: bool

    /** The arrays `readData_` was last given. */
    ghost var dataNodes: seq<Node>
    ghost var dataLinks: seq<Link>

    /** Link endpoints refer into `nodes`, and no endpoint key holds a `_`. */
    predicate Wellformed()
      reads this
    {
      LinksOk(nodes, links) && CleanEnds(nodes, links)
    }

    /** The object holds exactly what `readData_` computes from the arrays it was last given. */
    ghost predicate Valid()
      reads this
    {
      && LinksOk(dataNodes, dataLinks) && CleanEnds(dataNodes, dataLinks)
      && index == OldIndexOf(dataNodes, dataLinks)
      && nodes == index.nodes && links == index.links
      && tablesRead
    }

    /**
     * Every state the object can be in: just constructed, with no tables yet, or holding what
     * `readData_` computed.
     */
    ghost predicate Ready()
      reads this
    {
      Valid() || (!tablesRead && index == NoOldTables)
    }

    /** `this.nodes = n; this.links = l;` before anything is read. */
    constructor (n: seq<Node>, l: seq<Link>)
      ensures nodes == n && links == l && !tablesRead && index == NoOldTables
      ensures Ready()
    {
      nodes, links := n, l;
      tablesRead := false;
      index := NoOldTables;
      dataNodes, dataLinks := [], [];
    }

    /** `readData_`: compute every table from the arrays, then assign them all to the object. */
    method ReadData(ns: seq<Node>, ls: seq<Link>)
      requires LinksOk(ns, ls) && CleanEnds(ns, ls)
      modifies this
      ensures Valid() && dataNodes == ns && dataLinks == ls
    {
      dataNodes, dataLinks := ns, ls;
      var g := ReadTables(ns, ls);
      index, tablesRead := g, true;
      nodes, links := index.nodes, index.links;
    }

    /** The arrays `readData_` leaves behind are fit for the next edit: resolving keeps every endpoint key. */
    lemma ValidWellformed()
      requires Valid()
      ensures Wellformed()
    {
      OldIndexLinks(dataNodes, dataLinks);
      forall j | 0 <= j < |links|
        ensures LinkSep !in N0Key(nodes, links[j]) && LinkSep !in N1Key(nodes, links[j])
      {
        assert OldEnds(nodes, links[j]) == OldEnds(dataNodes, dataLinks[j]);
      }
    }

    /**
     * `isConnected` and `isConnected_`: false when an id or a type is undefined. Otherwise it
     * looks the pair up in `connectedDict`, which throws a TypeError before the tables are read;
     * after, it is true exactly when the two `id-type` keys are equal or some link runs between
     * them, either way round.
     */
    function IsConnected(n1Id: Option<string>, n1Type: Option<string>, n2Id: Option<string>, n2Type: Option<string>): (r: Outcome<bool>)
      reads this
      requires Ready()
      ensures !(n1Id.Some? && n1Type.Some? && n2Id.Some? && n2Type.Some?) ==> r == Returned(false)
      ensures r.TypeError? <==> !tablesRead && n1Id.Some? && n1Type.Some? && n2Id.Some? && n2Type.Some?
      ensures tablesRead ==>
        (var a, b := OldKey(n1Id, n1Type), OldKey(n2Id, n2Type);
         && r.Returned?
         && (r.value <==>
              && n1Id.Some? && n1Type.Some? && n2Id.Some? && n2Type.Some?
              && (a == b || Joined(dataNodes, dataLinks, a, b))))
    {
      if !(n1Id.Some? && n1Type.Some? && n2Id.Some? && n2Type.Some?) then Returned(false)
      else if !tablesRead then TypeError
      else
        ConnectedMeaning(dataNodes, dataLinks, n1Id, n1Type, n2Id, n2Type);
        Returned(Connected(index.connectedDict, n1Id, n1Type, n2Id, n2Type))
    }

    /**
     * `hasIncomingConnections`: the node's `id-type` key is a key of `incomingNodes`, which holds
     * when some link whose two endpoint keys are node keys ends at that key.
     */
    method HasIncomingConnections(nodeId: Option<string>, nodeType: Option<string>) returns (r: bool)
      requires Ready()
      ensures !tablesRead ==> !r
      ensures var key := OldKey(nodeId, nodeType);
        && (r <==> key in index.incoming)
        && (tablesRead ==>
              (r <==> exists j :: 0 <= j < |dataLinks| && Found(dataNodes, NodesObjOf(dataNodes), dataLinks[j]) && N1Key(dataNodes, dataLinks[j]) == key))
    {
      var key := OldKey(nodeId, nodeType);
      if tablesRead {
        NodesObjFirst(dataNodes);
        IncomingMeaning(dataNodes, NodesObjOf(dataNodes), dataLinks, |dataLinks|, key, key);
      }
      var rest := index.incoming.Keys;
      while rest != {}
        invariant rest <= index.incoming.Keys
        invariant key in index.incoming ==> key in rest
        decreases |rest|
      {
        var toKey :| toKey in rest;
        if toKey == key {
          return true;
        }
        rest := rest - {toKey};
      }
      return false;
    }

    /** `hasOutgoingConnections`: as `hasIncomingConnections`, with `outgoingNodes` and link sources. */
    method HasOutgoingConnections(nodeId: Option<string>, nodeType: Option<string>) returns (r: bool)
      requires Ready()
      ensures !tablesRead ==> !r
      ensures var key := OldKey(nodeId, nodeType);
        && (r <==> key in index.outgoing)
        && (tablesRead ==>
              (r <==> exists j :: 0 <= j < |dataLinks| && Found(dataNodes, NodesObjOf(dataNodes), dataLinks[j]) && N0Key(dataNodes, dataLinks[j]) == key))
    {
      var key := OldKey(nodeId, nodeType);
      if tablesRead {
        NodesObjFirst(dataNodes);
        OutgoingMeaning(dataNodes, NodesObjOf(dataNodes), dataLinks, |dataLinks|, key, key);
      }
      var rest := index.outgoing.Keys;
      while rest != {}
        invariant rest <= index.outgoing.Keys
        invariant key in index.outgoing ==> key in rest
        decreases |rest|
      {
        var fromKey :| fromKey in rest;
        if fromKey == key {
          return true;
        }
        rest := rest - {fromKey};
      }
      return false;
    }

    /**
     * `hasConnections`: some key of `connectedDict` splits at `_` into pieces the first or second
     * of which is the node's key, which holds exactly when some link has that key at an end.
     */
    method HasConnections(nodeId: Option<string>, nodeType: Option<string>) returns (r: bool)
      requires Ready()
      ensures !tablesRead ==> !r
      ensures var key := OldKey(nodeId, nodeType);
        && (r <==> exists s :: s in index.connectedDict && SplitHas(s, key))
        && (tablesRead ==>
              (r <==> exists j :: 0 <= j < |dataLinks| && (N0Key(dataNodes, dataLinks[j]) == key || N1Key(dataNodes, dataLinks[j]) == key)))
    {
      var key := OldKey(nodeId, nodeType);
      if tablesRead {
        HasConnectionsMeaning(dataNodes, dataLinks, key);
      }
      var rest := index.connectedDict;
      while rest != {}
        invariant rest <= index.connectedDict
        invariant forall s :: s in index.connectedDict && s !in rest ==> !SplitHas(s, key)
        decreases |rest|
      {
        var linkStr :| linkStr in rest;
        var str := Split(linkStr);
        if str[0] == key || (|str| > 1 && str[1] == key) {
          assert SplitHas(linkStr, key);
          return true;
        }
        rest := rest - {linkStr};
      }
      return false;
    }

    /** `addNode`'s existence test: some node has exactly this id and this type. */
    predicate HasNodeNamed(id: Option<string>, nodeType: Option<string>)
      reads this
    {
      exists i :: 0 <= i < |nodes| && nodes[i].id == id && nodes[i].nodeType == nodeType
    }

    /**
     * `addNode`: unless some node has the same id and type, push the node with its style defaults
     * and one link per associated edge, then rebuild. Either way such a node exists afterwards.
     */
    method AddNode(id: Option<string>, nodeType: Option<string>, attrObj: Json, styleObj: Json, assoEdges: seq<EdgeSpec>)
      requires Wellformed()
      requires !IsNullish(styleObj) && forall j :: 0 <= j < |assoEdges| ==> !IsNullish(assoEdges[j].style)
      requires forall j :: 0 <= j < |assoEdges| ==> CleanEdge(assoEdges[j])
      modifies this
      ensures HasNodeNamed(id, nodeType)
      ensures old(HasNodeNamed(id, nodeType)) ==> unchanged(this)
      ensures !old(HasNodeNamed(id, nodeType)) ==>
        && Valid()
        && dataNodes == old(nodes) + [NewNode(id, nodeType, attrObj, styleObj)]
        && dataLinks == old(links) + NewLinks(assoEdges)
    {
      var i := 0;
      while i < |nodes| && !(nodes[i].id == id && nodes[i].nodeType == nodeType)
        invariant 0 <= i <= |nodes|
        invariant forall p :: 0 <= p < i ==> !(nodes[p].id == id && nodes[p].nodeType == nodeType)
      {
        i := i + 1;
      }
      if i < |nodes| {
        return;
      }
      ghost var links0 := links;
      AddedClean(nodes, links, [NewNode(id, nodeType, attrObj, styleObj)], assoEdges);
      nodes := nodes + [NewNode(id, nodeType, attrObj, styleObj)];
      var j := 0;
      while j < |assoEdges|
        invariant 0 <= j <= |assoEdges|
        invariant nodes == old(nodes) + [NewNode(id, nodeType, attrObj, styleObj)]
        invariant links == links0 + NewLinks(assoEdges[..j])
      {
        links := links + [NewLink(assoEdges[j])];
        assert NewLinks(assoEdges[..j + 1]) == NewLinks(assoEdges[..j]) + [NewLink(assoEdges[j])];
        j := j + 1;
      }
      assert assoEdges[..|assoEdges|] == assoEdges;
      ReadData(nodes, links);
      assert nodes[|nodes| - 1] == NewNode(id, nodeType, attrObj, styleObj);
    }

    /** `addEdge`: unless an equal link exists, push one link with the style defaults and rebuild. */
    method AddEdge(e: EdgeSpec)
      requires Wellformed() && !IsNullish(e.style) && CleanEdge(e)
      modifies this
      ensures old(HasEdge(nodes, links, e)) ==> unchanged(this)
      ensures !old(HasEdge(nodes, links, e)) ==> Valid() && dataNodes == old(nodes) && dataLinks == old(links) + [NewLink(e)]
    {
      var i := 0;
      while i < |links| && !SameEdge(nodes, links[i], e)
        invariant 0 <= i <= |links|
        invariant forall p :: 0 <= p < i ==> !SameEdge(nodes, links[p], e)
      {
        i := i + 1;
      }
      if i < |links| {
        return;
      }
      AddedClean(nodes, links, [], [e]);
      assert nodes + [] == nodes && NewLinks([e]) == [NewLink(e)];
      links := links + [NewLink(e)];
      ReadData(nodes, links);
    }

    /**
     * `removeNode`: find the first node whose `id-type` string is the one asked for; if there is
     * one, splice it out, splice the links that have the id and type at an end (skipping the
     * link after each one spliced) and rebuild.
     */
    method RemoveNode(id: Option<string>, nodeType: Option<string>)
      requires Wellformed()
      modifies this
      ensures var r := FirstIndex(NodeNames(old(nodes)), OldKey(id, nodeType));
        && (r < 0 ==> unchanged(this))
        && (r >= 0 ==>
              && Valid()
              && dataNodes == Without(old(nodes), r)
              && dataLinks == SkipSplice(dataNodes, RemapLinks(old(nodes), r, old(links)), id, nodeType, 0))
    {
      var removeIdx := FirstIndex(NodeNames(nodes), OldKey(id, nodeType));
      if removeIdx == -1 {
        return;
      }
      RemapCleanEnds(nodes, removeIdx, links);
      var ns, ls := Without(nodes, removeIdx), RemapLinks(nodes, removeIdx, links);
      nodes, links := ns, ls;
      var i := 0;
      while i < |links|
        invariant nodes == ns
        invariant LinksOk(nodes, links) && CleanEnds(nodes, links)
        invariant SkipSplice(nodes, links, id, nodeType, i) == SkipSplice(ns, ls, id, nodeType, 0)
        decreases |links| - i
      {
        if Touches(nodes, links[i], id, nodeType) {
          WithoutClean(nodes, links, i);
          links := Without(links, i);
        }
        i := i + 1;
      }
      ReadData(nodes, links);
    }

    /** `removeEdge`: splice the first link whose `linksObj` key is the key asked for, if any, and rebuild. */
    method RemoveEdge(srcId: Option<string>, srcType: Option<string>, tgtId: Option<string>, tgtType: Option<string>, etype: Option<string>)
      requires Wellformed()
      modifies this
      ensures var r := FirstIndex(LinkNames(old(nodes), old(links)), EdgeName(srcId, srcType, tgtId, tgtType, etype));
        && (r < 0 ==> unchanged(this))
        && (r >= 0 ==> Valid() && dataNodes == old(nodes) && dataLinks == Without(old(links), r))
    {
      var removeIdx := FirstIndex(LinkNames(nodes, links), EdgeName(srcId, srcType, tgtId, tgtType, etype));
      if removeIdx == -1 {
        return;
      }
      WithoutClean(nodes, links, removeIdx);
      links := Without(links, removeIdx);
      ReadData(nodes, links);
    }
  }
}

/**
 * What the edit operations of src/NLGraph.js push and splice before they rebuild with
 * readData_: the records `addNode` (888-940) and `addEdge` (996-1033) build, the duplicate test
 * of `addNode`, the splice of `removeNode` (951-978) and the key `removeEdge` (1047-1066)
 * looks up.
 */
module GraphEdits {
  import opened Wrappers
  import opened Util
  import opened Keys
  import opened GraphData
  import opened NodeIndex
  import opened LinkIndex
  import opened GraphIndex
  import opened GraphQueries

  /** JavaScript truthiness (NaN is not modelled). */
  predicate Truthy(v: Json)
  {
    match v
    case JUndefined => false
    case JNull => false
    case JBool(b) => b
    case JNum(n) => n != 0.0
    case JStr(s) => s != ""
    case JArr(_) => true
    case JObj(_) => true
  }

  /** `a || b`. */
  function Or(a: Json, b: Json): Json
  {
    if Truthy(a) then a else b
  }

  /** `obj.k` on a value that is not null or undefined: an own property of an object, else undefined. */
  function Field(obj: Json, k: string): Json
  {
    if obj.JObj? then Lookup(obj.props, k) else JUndefined
  }

  /** A defined id or type as a JavaScript value. */
  function OptJson(v: Option<string>): Json
  {
    match v
    case Some(s) => JStr(s)
    case None => JUndefined
  }

  /** The style `addNode` gives a new node: each property of `styleObj`, or its default when falsy. */
  function NodeStyle(styleObj: Json): Json
  {
    JObj([
      ("size", Or(Field(styleObj, "size"), JNum(100.0))),
      ("shape", Or(Field(styleObj, "shape"), JStr("square"))),
      ("fill", Or(Field(styleObj, "fill"), JStr("#ff5500"))),
      ("stroke", Or(Field(styleObj, "stroke"), JStr("#ccc"))),
      ("strokeWidth", Or(Field(styleObj, "strokeWidth"), JNum(1.0))),
      ("dashed", Or(Field(styleObj, "dashed"), JBool(true))),
      ("opacity", Or(Field(styleObj, "opacity"), JNum(1.0)))])
  }

  /** The style `addNode` and `addEdge` give a new link. */
  function LinkStyle(styleObj: Json): Json
  {
    JObj([
      ("stroke", Or(Field(styleObj, "stroke"), JStr("#ccc"))),
      ("strokeWidth", Or(Field(styleObj, "strokeWidth"), JNum(1.0))),
      ("dashed", Or(Field(styleObj, "dashed"), JBool(true))),
      ("opacity", Or(Field(styleObj, "opacity"), JNum(1.0)))])
  }

  /**
   * Every property of a new node's or link's style is truthy: a falsy property, `0`, `""` or
   * `false` included, is replaced by its default, and so `dashed` is never false.
   */
  lemma StylesTruthy(styleObj: Json)
    ensures NodeStyle(styleObj).JObj? && LinkStyle(styleObj).JObj?
    ensures var ns := NodeStyle(styleObj).props; forall i :: 0 <= i < |ns| ==>
      Truthy(ns[i].1) && (Truthy(Field(styleObj, ns[i].0)) ==> ns[i].1 == Field(styleObj, ns[i].0))
    ensures var ls := LinkStyle(styleObj).props; forall i :: 0 <= i < |ls| ==>
      Truthy(ls[i].1) && (Truthy(Field(styleObj, ls[i].0)) ==> ls[i].1 == Field(styleObj, ls[i].0))
  {
    var ns, ls := NodeStyle(styleObj).props, LinkStyle(styleObj).props;
    forall i | 0 <= i < |ns|
      ensures Truthy(ns[i].1)
    {
      OrTruthy(Field(styleObj, ns[i].0), ns[i].1);
    }
    forall i | 0 <= i < |ls|
      ensures Truthy(ls[i].1)
    {
      OrTruthy(Field(styleObj, ls[i].0), ls[i].1);
    }
  }

  /** With a truthy default, `a || d` is truthy. */
  lemma OrTruthy(a: Json, d: Json)
    ensures Truthy(d) ==> Truthy(Or(a, d))
  {
  }

  /** The node `addNode` pushes: no key until readData_ writes it. */
  function NewNode(id: Option<string>, nodeType: Option<string>, attrObj: Json, styleObj: Json): Node
  {
    Node(id, nodeType, attrObj, NodeStyle(styleObj), None)
  }

  /** One entry of `assoEdges`, or the arguments of `addEdge`. */
  datatype EdgeSpec = EdgeSpec(
    srcId: Option<string>, srcType: Option<string>, tgtId: Option<string>, tgtType: Option<string>,
    etype: Option<string>, attr: Json, style: Json, directed: Json)

  /** The link pushed for an edge: raw `{id, type}` endpoints, the style defaults, `directed || false`. */
  function NewLink(e: EdgeSpec): Link
  {
    Link(Detached(e.srcId, e.srcType, None), Detached(e.tgtId, e.tgtType, None), e.etype, e.attr,
      LinkStyle(e.style), Or(e.directed, JBool(false)), None, None)
  }

  function NewLinks(edges: seq<EdgeSpec>): seq<Link>
  {
    seq(|edges|, j requires 0 <= j < |edges| => NewLink(edges[j]))
  }

  /** New links point nowhere into the nodes and carry no keys. */
  lemma NewLinksOk(nodes: seq<Node>, links: seq<Link>, edges: seq<EdgeSpec>)
    requires LinksOk(nodes, links) && CleanKeys(links)
    ensures LinksOk(nodes, links + NewLinks(edges)) && CleanKeys(links + NewLinks(edges))
  {
  }

  /** Appending nodes keeps every link endpoint in range. */
  lemma LinksOkGrow(nodes: seq<Node>, links: seq<Link>, more: seq<Node>)
    requires LinksOk(nodes, links)
    ensures LinksOk(nodes + more, links)
  {
  }

  /** `{id, type, attr}`: the record the duplicate test of `addNode` compares. */
  function Probe3(id: Option<string>, nodeType: Option<string>, attrObj: Json): Props
  {
    [("id", OptJson(id)), ("type", OptJson(nodeType)), ("attr", attrObj)]
  }

  /** A stored node record's own properties (the computed `shapeSize` and `radius` are not modelled). */
  function NodeProps(n: Node): Props
  {
    [("id", OptJson(n.id)), ("type", OptJson(n.nodeType)), ("attr", n.attr), ("style", n.style)]
      + (if n.key.Some? then [("key", JStr(n.key.value))] else [])
  }

  /**
   * The duplicate test of `addNode` never matches a node record that has a `style` property, as
   * every modelled node has: the compared record lacks it, so `objectEquals` is false.
   */
  lemma AddNodeNeverDuplicate(id: Option<string>, nodeType: Option<string>, attrObj: Json, n: Node)
    ensures !ObjectEquals(Probe3(id, nodeType, attrObj), NodeProps(n))
  {
    var a, b := Probe3(id, nodeType, attrObj), NodeProps(n);
    assert b[3].0 == "style";
    assert "style" in Util.Keys(b) by {
      assert Util.Keys(b) == {b[0].0} + Util.Keys(b[1..]);
      assert Util.Keys(b[1..]) == {b[1].0} + Util.Keys(b[2..]);
      assert Util.Keys(b[2..]) == {b[2].0} + Util.Keys(b[3..]);
      assert Util.Keys(b[3..]) == {b[3].0} + Util.Keys(b[4..]);
    }
    assert "style" !in Util.Keys(a) by {
      assert Util.Keys(a) == {a[0].0} + Util.Keys(a[1..]);
      assert Util.Keys(a[1..]) == {a[1].0} + Util.Keys(a[2..]);
      assert Util.Keys(a[2..]) == {a[2].0} + Util.Keys(a[3..]);
      assert a[3..] == [];
    }
    ObjectEqualsMissingKey(a, b, "style");
  }

  /** `nodes.splice(r, 1)` seen from a link endpoint: later nodes move down, the removed node is kept apart. */
  function RemapEnd(nodes: seq<Node>, r: nat, e: Endpoint): Endpoint
    requires r < |nodes|
  {
    match e
    case InNodes(i) =>
      if i == r then Detached(nodes[r].id, nodes[r].nodeType, nodes[r].key)
      else if i > r then InNodes(i - 1) else e
    case Detached(_, _, _) => e
  }

  function RemapLinks(nodes: seq<Node>, r: nat, links: seq<Link>): (ls: seq<Link>)
    requires r < |nodes|
    ensures |ls| == |links|
    ensures LinksOk(nodes, links) ==> LinksOk(Without(nodes, r), ls)
  {
    seq(|links|, j requires 0 <= j < |links| =>
      links[j].(source := RemapEnd(nodes, r, links[j].source), target := RemapEnd(nodes, r, links[j].target)))
  }

  function Without<T>(s: seq<T>, r: nat): seq<T>
    requires r < |s|
  {
    s[..r] + s[r + 1..]
  }

  /**
   * After the splice every endpoint still shows the id, type and key it showed before, and the
   * links point into the remaining nodes.
   */
  lemma RemapKeepsEnds(nodes: seq<Node>, r: nat, links: seq<Link>)
    requires r < |nodes| && LinksOk(nodes, links)
    ensures var ns, ls := Without(nodes, r), RemapLinks(nodes, r, links);
      && |ls| == |links| && LinksOk(ns, ls)
      && forall j :: 0 <= j < |links| ==>
           && EndId(ns, ls[j].source) == EndId(nodes, links[j].source) && EndType(ns, ls[j].source) == EndType(nodes, links[j].source)
           && EndKey(ns, ls[j].source) == EndKey(nodes, links[j].source)
           && EndId(ns, ls[j].target) == EndId(nodes, links[j].target) && EndType(ns, ls[j].target) == EndType(nodes, links[j].target)
           && EndKey(ns, ls[j].target) == EndKey(nodes, links[j].target)
           && ls[j].(source := links[j].source, target := links[j].target) == links[j]
  {
  }

  /** No node key holds a `_`. */
  predicate CleanNodes(nodes: seq<Node>)
  {
    forall i :: 0 <= i < |nodes| ==> nodes[i].key.Some? ==> LinkSep !in nodes[i].key.value
  }

  /** A node whose key holds no `_` leaves clean endpoint keys behind when spliced out. */
  lemma RemapClean(nodes: seq<Node>, r: nat, links: seq<Link>)
    requires r < |nodes| && CleanKeys(links)
    requires nodes[r].key.Some? ==> LinkSep !in nodes[r].key.value
    ensures CleanKeys(RemapLinks(nodes, r, links))
  {
  }

  /**
   * The link loop of `removeNode` from position i: a link touching the node is spliced out and
   * the index still moves on, so the link that slid into its place is not looked at.
   */
  function SkipSplice(nodes: seq<Node>, links: seq<Link>, id: Option<string>, nodeType: Option<string>, i: nat): seq<Link>
    requires LinksOk(nodes, links)
    decreases |links| - i
  {
    if i >= |links| then links
    else if Touches(nodes, links[i], id, nodeType) then SkipSplice(nodes, Without(links, i), id, nodeType, i + 1)
    else SkipSplice(nodes, links, id, nodeType, i + 1)
  }

  /**
   * The loop removes links and nothing else: what is left is a sub-multiset of the links, and
   * every link that does not touch the node is kept as often as it occurs.
   */
  lemma {:induction false} SkipSpliceKeeps(nodes: seq<Node>, links: seq<Link>, id: Option<string>, nodeType: Option<string>, i: nat)
    requires LinksOk(nodes, links)
    ensures var r := SkipSplice(nodes, links, id, nodeType, i);
      && multiset(r) <= multiset(links)
      && (forall l :: l in links && !Touches(nodes, l, id, nodeType) ==> multiset(r)[l] == multiset(links)[l])
    decreases |links| - i
  {
    if i < |links| {
      if Touches(nodes, links[i], id, nodeType) {
        var w := Without(links, i);
        WithoutMultiset(links, i);
        SkipSpliceKeeps(nodes, w, id, nodeType, i + 1);
        var r := SkipSplice(nodes, links, id, nodeType, i);
        assert r == SkipSplice(nodes, w, id, nodeType, i + 1);
        forall l | l in links && !Touches(nodes, l, id, nodeType)
          ensures multiset(r)[l] == multiset(links)[l]
        {
          assert l != links[i];
        }
      } else {
        SkipSpliceKeeps(nodes, links, id, nodeType, i + 1);
      }
    }
  }

  lemma WithoutMultiset<T>(s: seq<T>, r: nat)
    requires r < |s|
    ensures multiset(s) == multiset(Without(s, r)) + multiset{s[r]}
  {
    assert s == s[..r] + [s[r]] + s[r + 1..];
  }

  /** Links the loop has passed stay as they are. */
  lemma {:induction false} SkipSplicePrefix(nodes: seq<Node>, links: seq<Link>, id: Option<string>, nodeType: Option<string>, i: nat)
    requires LinksOk(nodes, links) && i <= |links|
    ensures |SkipSplice(nodes, links, id, nodeType, i)| >= i
    ensures SkipSplice(nodes, links, id, nodeType, i)[..i] == links[..i]
    decreases |links| - i
  {
    if i < |links| {
      if Touches(nodes, links[i], id, nodeType) {
        var w := Without(links, i);
        assert w[..i] == links[..i];
        if i + 1 <= |w| {
          SkipSplicePrefix(nodes, w, id, nodeType, i + 1);
          assert SkipSplice(nodes, w, id, nodeType, i + 1)[..i] == SkipSplice(nodes, w, id, nodeType, i + 1)[..i + 1][..i];
        }
      } else {
        SkipSplicePrefix(nodes, links, id, nodeType, i + 1);
        assert SkipSplice(nodes, links, id, nodeType, i + 1)[..i] == SkipSplice(nodes, links, id, nodeType, i + 1)[..i + 1][..i];
      }
    }
  }

  /**
   * The skip: two adjacent links that both touch the node, with nothing after them, lose only
   * the first.
   */
  lemma SkipSpliceSkipsNext(nodes: seq<Node>, a: Link, b: Link, id: Option<string>, nodeType: Option<string>)
    requires EndpointOk(nodes, a.source) && EndpointOk(nodes, a.target)
    requires EndpointOk(nodes, b.source) && EndpointOk(nodes, b.target)
    requires Touches(nodes, a, id, nodeType) && Touches(nodes, b, id, nodeType)
    ensures LinksOk(nodes, [a, b]) && SkipSplice(nodes, [a, b], id, nodeType, 0) == [b]
  {
    assert Without([a, b], 0) == [b];
  }

  /** The key `removeEdge` looks for, from the registries (`undefined` for an unregistered part). */
  function EdgeKey(g: Indexed, e: EdgeSpec): string
  {
    PairKey(
      PairKey(NodeKeyOf(g.nodeIDsMap, g.nodeTypesMap, e.srcId, e.srcType), NodeKeyOf(g.nodeIDsMap, g.nodeTypesMap, e.tgtId, e.tgtType)),
      KeyPart(Get(g.linkTypesMap, PropName(e.etype))))
  }

  /** `Array.prototype.indexOf`: the first position holding x, or -1 when there is none. */
  function FirstIndex<T(==)>(s: seq<T>, x: T): (r: int)
    ensures -1 <= r < |s|
    ensures r >= 0 ==> s[r] == x
    ensures forall p :: 0 <= p < |s| && (r < 0 || p < r) ==> s[p] != x
  {
    if s == [] then -1
    else if s[0] == x then 0
    else
      var t := FirstIndex(s[1..], x);
      assert forall p :: 1 <= p < |s| ==> s[p] == s[1..][p - 1];
      if t < 0 then -1 else t + 1
  }

  /** `nodes.map(item => item.key)` */
  function NodeKeys(nodes: seq<Node>): seq<Option<string>>
  {
    seq(|nodes|, i requires 0 <= i < |nodes| => nodes[i].key)
  }

  /** `links.map(item => item.key)` */
  function LinkKeyList(links: seq<Link>): seq<Option<string>>
  {
    seq(|links|, i requires 0 <= i < |links| => links[i].key)
  }

  /** Node i has the id and the type, as property names. */
  predicate SameNames(ns: seq<Node>, i: nat, id: Option<string>, nodeType: Option<string>)
    requires i < |ns|
  {
    PropName(ns[i].id) == PropName(id) && PropName(ns[i].nodeType) == PropName(nodeType)
  }

  /** The key `removeNode` builds from the registries is node i's key exactly when node i has that id and type. */
  lemma NodeKeyMatches(ns: seq<Node>, id: Option<string>, nodeType: Option<string>, i: nat)
    requires i < |ns|
    ensures KeyedNodes(ns)[i].key == Some(NodeKeyOf(IdsMap(ns), TypesMap(ns), id, nodeType)) <==> SameNames(ns, i, id, nodeType)
  {
    KeyedNodesKeys(ns, i, i);
    NodeKeyOfInjective(ns, ns[i].id, ns[i].nodeType, id, nodeType);
  }

  /**
   * The position `removeNode` splices is the first node with that id and type, and -1 (no
   * change) exactly when no node has them, an unregistered id or type included.
   */
  lemma RemoveNodeFinds(ns: seq<Node>, id: Option<string>, nodeType: Option<string>)
    ensures var r := FirstIndex(NodeKeys(KeyedNodes(ns)), Some(NodeKeyOf(IdsMap(ns), TypesMap(ns), id, nodeType)));
      && -1 <= r < |ns|
      && (r >= 0 ==> SameNames(ns, r, id, nodeType))
      && (forall p :: 0 <= p < |ns| && (r < 0 || p < r) ==> !SameNames(ns, p, id, nodeType))
  {
    forall p | 0 <= p < |ns|
      ensures NodeKeys(KeyedNodes(ns))[p] == Some(NodeKeyOf(IdsMap(ns), TypesMap(ns), id, nodeType)) <==> SameNames(ns, p, id, nodeType)
    {
      NodeKeyMatches(ns, id, nodeType, p);
    }
  }

  /** Link j's source key, target key and etype are those `removeEdge` was given. */
  predicate EdgeMatch(nodes: seq<Node>, links: seq<Link>, e: EdgeSpec, j: nat)
    requires LinksOk(nodes, links) && j < |links|
  {
    && SrcKey(nodes, links, j) == NodeKeyOf(IdsMap(nodes), TypesMap(nodes), e.srcId, e.srcType)
    && TgtKey(nodes, links, j) == NodeKeyOf(IdsMap(nodes), TypesMap(nodes), e.tgtId, e.tgtType)
    && PropName(links[j].etype) == PropName(e.etype)
  }

  /** The key `removeEdge` builds is link j's key exactly when link j matches the arguments. */
  lemma EdgeKeyMatches(nodes: seq<Node>, links: seq<Link>, e: EdgeSpec, j: nat)
    requires LinksOk(nodes, links) && j < |links|
    ensures LinkKey(nodes, links, j) == EdgeKey(IndexOf(nodes, links), e) <==> EdgeMatch(nodes, links, e, j)
  {
    var g := IndexOf(nodes, links);
    var types := LinkTypesMap(links);
    assert g.nodeIDsMap == IdsMap(nodes) && g.nodeTypesMap == TypesMap(nodes) && g.linkTypesMap == types;
    LinkKeyParts(nodes, links, j);
    EtypeRegistered(links, j);
    var s, t := NodeKeyOf(IdsMap(nodes), TypesMap(nodes), e.srcId, e.srcType), NodeKeyOf(IdsMap(nodes), TypesMap(nodes), e.tgtId, e.tgtType);
    var e1, e2 := PropName(links[j].etype), PropName(e.etype);
    var x, y := KeyPart(Some(types[e1])), KeyPart(Get(types, e2));
    assert EdgeKey(g, e) == PairKey(PairKey(s, t), y);
    PairKeyAssoc(s, t, y);
    PairKeyInjective(SrcKey(nodes, links, j), PairKey(TgtKey(nodes, links, j), x), s, PairKey(t, y));
    PairKeyInjective(TgtKey(nodes, links, j), x, t, y);
    KeyPartInjective(Some(types[e1]), Get(types, e2));
    if e2 in types && types[e1] == types[e2] {
      assert PropName(links[types[e1]].etype) == e1;
    }
  }

  /**
   * The position `removeEdge` splices is the first link matching the arguments, and -1 (no
   * change) exactly when no link matches.
   */
  lemma RemoveEdgeFinds(nodes: seq<Node>, links: seq<Link>, e: EdgeSpec)
    requires LinksOk(nodes, links)
    ensures var g := IndexOf(nodes, links); var r := FirstIndex(LinkKeyList(g.links), Some(EdgeKey(g, e)));
      && -1 <= r < |links|
      && (r >= 0 ==> EdgeMatch(nodes, links, e, r))
      && (forall p :: 0 <= p < |links| && (r < 0 || p < r) ==> !EdgeMatch(nodes, links, e, p))
  {
    var g := IndexOf(nodes, links);
    LinkKeysCarried(nodes, links);
    forall p | 0 <= p < |links|
      ensures LinkKeyList(g.links)[p] == Some(EdgeKey(g, e)) <==> EdgeMatch(nodes, links, e, p)
    {
      EdgeKeyMatches(nodes, links, e, p);
    }
  }

  /** `addEdge`'s existence test for one link: same source id and type, target id and type, and etype. */
  predicate SameEdge(nodes: seq<Node>, l: Link, e: EdgeSpec)
    requires EndpointOk(nodes, l.source) && EndpointOk(nodes, l.target)
  {
    && EndId(nodes, l.source) == e.srcId && EndType(nodes, l.source) == e.srcType
    && EndId(nodes, l.target) == e.tgtId && EndType(nodes, l.target) == e.tgtType
    && l.etype == e.etype
  }

  /** `addEdge`'s existence test: some link has the same source and target id and type, and etype. */
  predicate HasEdge(nodes: seq<Node>, links: seq<Link>, e: EdgeSpec)
    requires LinksOk(nodes, links)
  {
    exists i :: 0 <= i < |links| && SameEdge(nodes, links[i], e)
  }

  /** Some stored node equals the record `addNode` compares. */
  predicate HasNode(nodes: seq<Node>, id: Option<string>, nodeType: Option<string>, attrObj: Json)
  {
    exists i :: 0 <= i < |nodes| && ObjectEquals(Probe3(id, nodeType, attrObj), NodeProps(nodes[i]))
  }

  /** So `addNode` always appends. */
  lemma AddNodeAlwaysAppends(nodes: seq<Node>, id: Option<string>, nodeType: Option<string>, attrObj: Json)
    ensures !HasNode(nodes, id, nodeType, attrObj)
  {
    forall i | 0 <= i < |nodes|
      ensures !ObjectEquals(Probe3(id, nodeType, attrObj), NodeProps(nodes[i]))
    {
      AddNodeNeverDuplicate(id, nodeType, attrObj, nodes[i]);
    }
  }
}

/**
 * What the queries and edits of the earlier engine of src/NLGraph-old.js mean in terms of the
 * links: the tables they read are those of `readData_`, keyed by `id-type` strings, and the
 * edits keep every endpoint key free of `_`.
 */
module OldQueries {
  import opened Wrappers
  import opened Util
  import opened Keys
  import opened GraphData
  import opened OldKeys
  import opened OldIndex
  import opened GraphEdits

  /**
   * `isConnected_` and `isConnected` (src/NLGraph-old.js:1861-1907) on the pair dictionary:
   * false unless both ids and both types are defined.
   */
  function Connected(dict: set<string>, n1Id: Option<string>, n1Type: Option<string>, n2Id: Option<string>, n2Type: Option<string>): bool
  {
    if n1Id.Some? && n1Type.Some? && n2Id.Some? && n2Type.Some? then
      var n1Key, n2Key := OldKey(n1Id, n1Type), OldKey(n2Id, n2Type);
      PairKey(n1Key, n2Key) in dict || PairKey(n2Key, n1Key) in dict || n1Key == n2Key
    else false
  }

  /** Some link runs between the keys a and b, one way or the other. */
  ghost predicate Joined(nodes: seq<Node>, links: seq<Link>, a: string, b: string)
    requires LinksOk(nodes, links)
  {
    exists j :: 0 <= j < |links| &&
      ((N0Key(nodes, links[j]) == a && N1Key(nodes, links[j]) == b) ||
       (N0Key(nodes, links[j]) == b && N1Key(nodes, links[j]) == a))
  }

  /** A pair key is in the dictionary exactly when some link has those two keys, in that order. */
  lemma DictPair(nodes: seq<Node>, links: seq<Link>, a: string, b: string)
    requires LinksOk(nodes, links) && CleanEnds(nodes, links)
    ensures PairKey(a, b) in OldIndexOf(nodes, links).connectedDict <==>
      exists j :: 0 <= j < |links| && N0Key(nodes, links[j]) == a && N1Key(nodes, links[j]) == b
  {
    var obj := NodesObjOf(nodes);
    NodesObjFirst(nodes);
    ConnectedDictMeaning(nodes, obj, links, |links|, PairKey(a, b));
    if PairKey(a, b) in OldIndexOf(nodes, links).connectedDict {
      var j :| 0 <= j < |links| && PairKey(N0Key(nodes, links[j]), N1Key(nodes, links[j])) == PairKey(a, b);
      PairKeyUnsplit(a, b, N0Key(nodes, links[j]), N1Key(nodes, links[j]));
    }
  }

  /**
   * With every endpoint key free of `_`, two nodes are connected exactly when all four names
   * are defined and their keys are equal or joined by a link; the answer does not depend on the
   * order of the two nodes.
   */
  lemma ConnectedMeaning(nodes: seq<Node>, links: seq<Link>, n1Id: Option<string>, n1Type: Option<string>, n2Id: Option<string>, n2Type: Option<string>)
    requires LinksOk(nodes, links) && CleanEnds(nodes, links)
    ensures var a, b := OldKey(n1Id, n1Type), OldKey(n2Id, n2Type);
      Connected(OldIndexOf(nodes, links).connectedDict, n1Id, n1Type, n2Id, n2Type) <==>
        && n1Id.Some? && n1Type.Some? && n2Id.Some? && n2Type.Some?
        && (a == b || Joined(nodes, links, a, b))
    ensures var dict := OldIndexOf(nodes, links).connectedDict;
      Connected(dict, n1Id, n1Type, n2Id, n2Type) == Connected(dict, n2Id, n2Type, n1Id, n1Type)
  {
    var a, b := OldKey(n1Id, n1Type), OldKey(n2Id, n2Type);
    DictPair(nodes, links, a, b);
    DictPair(nodes, links, b, a);
  }

  /** The test `hasConnections` makes on one dictionary key: its first or second `_` piece is the key. */
  predicate SplitHas(s: string, key: string)
  {
    var str := Split(s);
    str[0] == key || (|str| > 1 && str[1] == key)
  }

  /** Some dictionary key passes the test of `hasConnections` exactly when some link has the key at an end. */
  lemma HasConnectionsMeaning(nodes: seq<Node>, links: seq<Link>, key: string)
    requires LinksOk(nodes, links) && CleanEnds(nodes, links)
    ensures (exists s :: s in OldIndexOf(nodes, links).connectedDict && SplitHas(s, key)) <==>
      exists j :: 0 <= j < |links| && (N0Key(nodes, links[j]) == key || N1Key(nodes, links[j]) == key)
  {
    var obj := NodesObjOf(nodes);
    NodesObjFirst(nodes);
    var dict := OldIndexOf(nodes, links).connectedDict;
    if s :| s in dict && SplitHas(s, key) {
      ConnectedDictMeaning(nodes, obj, links, |links|, s);
      var j :| 0 <= j < |links| && PairKey(N0Key(nodes, links[j]), N1Key(nodes, links[j])) == s;
      SplitPairKey(N0Key(nodes, links[j]), N1Key(nodes, links[j]));
    }
    if j :| 0 <= j < |links| && (N0Key(nodes, links[j]) == key || N1Key(nodes, links[j]) == key) {
      var s := PairKey(N0Key(nodes, links[j]), N1Key(nodes, links[j]));
      ConnectedDictMeaning(nodes, obj, links, |links|, s);
      SplitPairKey(N0Key(nodes, links[j]), N1Key(nodes, links[j]));
      assert SplitHas(s, key);
    }
  }

  /**
   * `removeNode` compares `id-type` strings, and the `-` may sit inside an id or a type: asked
   * to remove id "a" of type "b-c", it finds the node with id "a-b" of type "c".
   */
  lemma RemoveNodeKeyCollision(attr: Json, style: Json)
    ensures var n := Node(Some("a-b"), Some("c"), attr, style, None);
      && FirstIndex(NodeNames([n]), OldKey(Some("a"), Some("b-c"))) == 0
      && (n.id, n.nodeType) != (Some("a"), Some("b-c"))
  {
    var n := Node(Some("a-b"), Some("c"), attr, style, None);
    assert OldKey(Some("a"), Some("b-c")) == "a-b-c";
    assert NodeNames([n])[0] == "a-b-c";
  }

  /** `srcid-srctype_tgtid-tgttype_etype`, the key `removeEdge` looks for. */
  function EdgeName(srcId: Option<string>, srcType: Option<string>, tgtId: Option<string>, tgtType: Option<string>, etype: Option<string>): string
  {
    PairKey(PairKey(OldKey(srcId, srcType), OldKey(tgtId, tgtType)), PropName(etype))
  }

  /** The link has the two endpoint keys and the etype name asked for. */
  predicate EdgeHits(nodes: seq<Node>, l: Link, srcId: Option<string>, srcType: Option<string>, tgtId: Option<string>, tgtType: Option<string>, etype: Option<string>)
    requires EndsOk(nodes, l)
  {
    && N0Key(nodes, l) == OldKey(srcId, srcType)
    && N1Key(nodes, l) == OldKey(tgtId, tgtType)
    && PropName(l.etype) == PropName(etype)
  }

  /** With clean endpoint keys and clean names asked for, a link's key is the key asked for exactly when the link hits. */
  lemma EdgeNameMatches(nodes: seq<Node>, l: Link, srcId: Option<string>, srcType: Option<string>, tgtId: Option<string>, tgtType: Option<string>, etype: Option<string>)
    requires EndsOk(nodes, l) && LinkSep !in N0Key(nodes, l) && LinkSep !in N1Key(nodes, l)
    requires CleanName(srcId) && CleanName(srcType) && CleanName(tgtId) && CleanName(tgtType)
    ensures LinkName(nodes, l) == EdgeName(srcId, srcType, tgtId, tgtType, etype) <==>
      EdgeHits(nodes, l, srcId, srcType, tgtId, tgtType, etype)
  {
    var a, b, c := N0Key(nodes, l), N1Key(nodes, l), PropName(l.etype);
    var x, y, z := OldKey(srcId, srcType), OldKey(tgtId, tgtType), PropName(etype);
    PairKeyAssoc(a, b, c);
    PairKeyAssoc(x, y, z);
    PairKeyInjective(a, PairKey(b, c), x, PairKey(y, z));
    PairKeyInjective(b, c, y, z);
  }

  /**
   * `removeEdge` finds the first link whose endpoint keys and etype name are those asked for,
   * when no key involved holds a `_`.
   */
  lemma EdgeNameFinds(nodes: seq<Node>, links: seq<Link>, srcId: Option<string>, srcType: Option<string>, tgtId: Option<string>, tgtType: Option<string>, etype: Option<string>)
    requires LinksOk(nodes, links) && CleanEnds(nodes, links)
    requires CleanName(srcId) && CleanName(srcType) && CleanName(tgtId) && CleanName(tgtType)
    ensures var r := FirstIndex(LinkNames(nodes, links), EdgeName(srcId, srcType, tgtId, tgtType, etype));
      && -1 <= r < |links|
      && (r >= 0 ==> EdgeHits(nodes, links[r], srcId, srcType, tgtId, tgtType, etype))
      && (forall p :: 0 <= p < |links| && (r < 0 || p < r) ==> !EdgeHits(nodes, links[p], srcId, srcType, tgtId, tgtType, etype))
  {
    forall p | 0 <= p < |links|
      ensures LinkNames(nodes, links)[p] == EdgeName(srcId, srcType, tgtId, tgtType, etype) <==>
        EdgeHits(nodes, links[p], srcId, srcType, tgtId, tgtType, etype)
    {
      EdgeNameMatches(nodes, links[p], srcId, srcType, tgtId, tgtType, etype);
    }
  }

  /** The names of an edge to add hold no `_`. */
  predicate CleanEdge(e: EdgeSpec)
  {
    CleanName(e.srcId) && CleanName(e.srcType) && CleanName(e.tgtId) && CleanName(e.tgtType)
  }

  /** Pushing nodes and links for clean edges keeps every endpoint key clean. */
  lemma AddedClean(nodes: seq<Node>, links: seq<Link>, more: seq<Node>, edges: seq<EdgeSpec>)
    requires LinksOk(nodes, links) && CleanEnds(nodes, links)
    requires forall j :: 0 <= j < |edges| ==> CleanEdge(edges[j])
    ensures LinksOk(nodes + more, links + NewLinks(edges)) && CleanEnds(nodes + more, links + NewLinks(edges))
  {
    var ns, ls := nodes + more, links + NewLinks(edges);
    forall j | 0 <= j < |ls|
      ensures EndsOk(ns, ls[j]) && LinkSep !in N0Key(ns, ls[j]) && LinkSep !in N1Key(ns, ls[j])
    {
      if j < |links| {
        assert N0Key(ns, ls[j]) == N0Key(nodes, links[j]) && N1Key(ns, ls[j]) == N1Key(nodes, links[j]);
      } else {
        assert ls[j] == NewLink(edges[j - |links|]);
      }
    }
  }

  /** Splicing one link out keeps every endpoint key clean. */
  lemma WithoutClean(nodes: seq<Node>, links: seq<Link>, i: nat)
    requires LinksOk(nodes, links) && CleanEnds(nodes, links) && i < |links|
    ensures LinksOk(nodes, Without(links, i)) && CleanEnds(nodes, Without(links, i))
  {
    var w := Without(links, i);
    forall j | 0 <= j < |w|
      ensures EndsOk(nodes, w[j]) && LinkSep !in N0Key(nodes, w[j]) && LinkSep !in N1Key(nodes, w[j])
    {
      assert w[j] == if j < i then links[j] else links[j + 1];
    }
  }

  /** Splicing a node out and detaching the links that pointed at it keeps every endpoint key. */
  lemma RemapCleanEnds(nodes: seq<Node>, r: nat, links: seq<Link>)
    requires r < |nodes| && LinksOk(nodes, links) && CleanEnds(nodes, links)
    ensures var ns, ls := Without(nodes, r), RemapLinks(nodes, r, links);
      LinksOk(ns, ls) && CleanEnds(ns, ls)
  {
    RemapKeepsEnds(nodes, r, links);
    var ns, ls := Without(nodes, r), RemapLinks(nodes, r, links);
    forall j | 0 <= j < |ls|
      ensures N0Key(ns, ls[j]) == N0Key(nodes, links[j]) && N1Key(ns, ls[j]) == N1Key(nodes, links[j])
    {
    }
  }
}

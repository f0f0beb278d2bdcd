/**
 * The read-only queries of src/NLGraph.js over the tables readData_ leaves:
 * `hasConnections` (2209-2220), `getAssociatedLinks` (3122-3135) and `getAssociatedNodes`
 * (3146-3167), each as the value its loop builds.
 */
module GraphQueries {
  import opened Wrappers
  import opened GraphData
  import opened GraphIndex

  /** `l.source.id == id && l.source.type == type`, or the same of the target. */
  predicate Touches(nodes: seq<Node>, l: Link, id: Option<string>, nodeType: Option<string>)
    requires EndpointOk(nodes, l.source) && EndpointOk(nodes, l.target)
  {
    || (EndId(nodes, l.source) == id && EndType(nodes, l.source) == nodeType)
    || (EndId(nodes, l.target) == id && EndType(nodes, l.target) == nodeType)
  }

  /** The tables the queries walk: `linkKeys` lists the keys of `linksObj`, which points at links. */
  predicate TablesOk(g: Indexed)
  {
    && LinksOk(g.nodes, g.links)
    && (forall k :: k in g.linkKeys ==> k in g.linksObj)
    && (forall k :: k in g.linksObj ==> k in g.linkKeys)
    && (forall k :: k in g.linksObj ==> g.linksObj[k] < |g.links|)
  }

  /** `this.linksObj[k]` for the i-th key of `linksObj`. */
  function KeyedLink(g: Indexed, i: nat): (l: Link)
    requires TablesOk(g) && i < |g.linkKeys|
    ensures EndpointOk(g.nodes, l.source) && EndpointOk(g.nodes, l.target)
  {
    assert g.linkKeys[i] in g.linkKeys;
    g.links[g.linksObj[g.linkKeys[i]]]
  }

  /** What `getAssociatedLinks` has pushed after the first n keys of `linksObj`. */
  function AssociatedLinks(g: Indexed, id: Option<string>, nodeType: Option<string>, n: nat): seq<Link>
    requires TablesOk(g) && n <= |g.linkKeys|
  {
    if n == 0 then []
    else
      var l := KeyedLink(g, n - 1);
      AssociatedLinks(g, id, nodeType, n - 1) + (if Touches(g.nodes, l, id, nodeType) then [l] else [])
  }

  /**
   * `getAssociatedLinks` reports, in the key order of `linksObj`, exactly the links `linksObj`
   * keeps that touch the node: each element is such a link, and each such link is reported.
   */
  lemma {:induction false} AssociatedLinksMeaning(g: Indexed, id: Option<string>, nodeType: Option<string>, n: nat)
    requires TablesOk(g) && n <= |g.linkKeys|
    ensures var r := AssociatedLinks(g, id, nodeType, n);
      && |r| <= n
      && (forall l :: l in r ==> exists i :: 0 <= i < n && KeyedLink(g, i) == l && Touches(g.nodes, l, id, nodeType))
      && (forall i :: 0 <= i < n && Touches(g.nodes, KeyedLink(g, i), id, nodeType) ==> KeyedLink(g, i) in r)
  {
    if n > 0 {
      AssociatedLinksMeaning(g, id, nodeType, n - 1);
    }
  }

  /** `containsObj(resNodes, key)`: some endpoint already collected has that key. */
  predicate HasKey(nodes: seq<Node>, res: seq<Endpoint>, key: Option<string>)
    requires forall e :: e in res ==> EndpointOk(nodes, e)
  {
    exists e :: e in res && EndKey(nodes, e) == key
  }

  /** Push `e` unless an endpoint with its key is already there. */
  function PushNew(nodes: seq<Node>, res: seq<Endpoint>, e: Endpoint): (r: seq<Endpoint>)
    requires EndpointOk(nodes, e) && forall x :: x in res ==> EndpointOk(nodes, x)
    ensures forall x :: x in r ==> EndpointOk(nodes, x)
  {
    if HasKey(nodes, res, EndKey(nodes, e)) then res else res + [e]
  }

  /** One key of `getAssociatedNodes`: the target when the source is the node, then the source when the target is. */
  function VisitLink(nodes: seq<Node>, res: seq<Endpoint>, l: Link, id: Option<string>, nodeType: Option<string>): (r: seq<Endpoint>)
    requires EndpointOk(nodes, l.source) && EndpointOk(nodes, l.target) && forall x :: x in res ==> EndpointOk(nodes, x)
    ensures forall x :: x in r ==> EndpointOk(nodes, x)
  {
    var r1 := if EndId(nodes, l.source) == id && EndType(nodes, l.source) == nodeType then PushNew(nodes, res, l.target) else res;
    if EndId(nodes, l.target) == id && EndType(nodes, l.target) == nodeType then PushNew(nodes, r1, l.source) else r1
  }

  /** What `getAssociatedNodes` has collected after the first n keys of `linksObj`. */
  function AssociatedNodes(g: Indexed, id: Option<string>, nodeType: Option<string>, n: nat): (r: seq<Endpoint>)
    requires TablesOk(g) && n <= |g.linkKeys|
    ensures forall x :: x in r ==> EndpointOk(g.nodes, x)
  {
    if n == 0 then [] else VisitLink(g.nodes, AssociatedNodes(g, id, nodeType, n - 1), KeyedLink(g, n - 1), id, nodeType)
  }

  /** The collected endpoints have pairwise different keys. */
  predicate DistinctEndKeys(nodes: seq<Node>, res: seq<Endpoint>)
    requires forall e :: e in res ==> EndpointOk(nodes, e)
  {
    forall a, b :: 0 <= a < b < |res| ==> EndKey(nodes, res[a]) != EndKey(nodes, res[b])
  }

  /** The other end of link l seen from the node, when l's source or target is the node. */
  predicate Neighbour(nodes: seq<Node>, l: Link, id: Option<string>, nodeType: Option<string>, e: Endpoint)
    requires EndpointOk(nodes, l.source) && EndpointOk(nodes, l.target)
  {
    || (EndId(nodes, l.source) == id && EndType(nodes, l.source) == nodeType && e == l.target)
    || (EndId(nodes, l.target) == id && EndType(nodes, l.target) == nodeType && e == l.source)
  }

  /** Pushing only keys not yet present keeps the keys distinct, and keeps or adds the pushed key. */
  lemma PushNewFacts(nodes: seq<Node>, res: seq<Endpoint>, e: Endpoint)
    requires EndpointOk(nodes, e) && (forall x :: x in res ==> EndpointOk(nodes, x)) && DistinctEndKeys(nodes, res)
    ensures var r := PushNew(nodes, res, e);
      && DistinctEndKeys(nodes, r)
      && (forall x :: x in r ==> x in res || x == e)
      && (forall x :: x in res ==> x in r)
      && HasKey(nodes, r, EndKey(nodes, e))
  {
    var r := PushNew(nodes, res, e);
    if !HasKey(nodes, res, EndKey(nodes, e)) {
      forall a | 0 <= a < |res|
        ensures EndKey(nodes, res[a]) != EndKey(nodes, e)
      {
        assert res[a] in res;
      }
      assert r[|res|] == e;
    }
  }

  /** One step of `getAssociatedNodes`: what visiting link l keeps, adds and leaves distinct. */
  lemma VisitLinkFacts(nodes: seq<Node>, res: seq<Endpoint>, l: Link, id: Option<string>, nodeType: Option<string>)
    requires EndpointOk(nodes, l.source) && EndpointOk(nodes, l.target)
    requires (forall x :: x in res ==> EndpointOk(nodes, x)) && DistinctEndKeys(nodes, res)
    ensures var r := VisitLink(nodes, res, l, id, nodeType);
      && DistinctEndKeys(nodes, r)
      && (forall x :: x in r ==> x in res || Neighbour(nodes, l, id, nodeType, x))
      && (forall x :: x in res ==> x in r)
      && (forall e :: Neighbour(nodes, l, id, nodeType, e) ==> HasKey(nodes, r, EndKey(nodes, e)))
  {
    var fromSource := EndId(nodes, l.source) == id && EndType(nodes, l.source) == nodeType;
    var fromTarget := EndId(nodes, l.target) == id && EndType(nodes, l.target) == nodeType;
    var r1 := if fromSource then PushNew(nodes, res, l.target) else res;
    if fromSource {
      PushNewFacts(nodes, res, l.target);
    }
    if fromTarget {
      PushNewFacts(nodes, r1, l.source);
    }
    var r := VisitLink(nodes, res, l, id, nodeType);
    forall e | Neighbour(nodes, l, id, nodeType, e)
      ensures HasKey(nodes, r, EndKey(nodes, e))
    {
      if fromSource && e == l.target {
        var x :| x in r1 && EndKey(nodes, x) == EndKey(nodes, e);
        assert x in r;
      }
    }
  }

  /**
   * `getAssociatedNodes` de-duplicates by key: the endpoints it collects have pairwise
   * different keys, each is the other end of a link `linksObj` keeps that touches the node, and
   * the other end of every such link has its key among them.
   */
  lemma {:induction false} AssociatedNodesMeaning(g: Indexed, id: Option<string>, nodeType: Option<string>, n: nat)
    requires TablesOk(g) && n <= |g.linkKeys|
    ensures var r := AssociatedNodes(g, id, nodeType, n);
      && DistinctEndKeys(g.nodes, r)
      && (forall e :: e in r ==> exists i :: 0 <= i < n && Neighbour(g.nodes, KeyedLink(g, i), id, nodeType, e))
      && (forall i, e :: 0 <= i < n && Neighbour(g.nodes, KeyedLink(g, i), id, nodeType, e) ==> HasKey(g.nodes, r, EndKey(g.nodes, e)))
  {
    if n > 0 {
      AssociatedNodesMeaning(g, id, nodeType, n - 1);
      var res := AssociatedNodes(g, id, nodeType, n - 1);
      var nodes := g.nodes;
      VisitLinkFacts(nodes, res, KeyedLink(g, n - 1), id, nodeType);
      var r := AssociatedNodes(g, id, nodeType, n);
      forall i, e | 0 <= i < n - 1 && Neighbour(nodes, KeyedLink(g, i), id, nodeType, e)
        ensures HasKey(nodes, r, EndKey(nodes, e))
      {
        var x :| x in res && EndKey(nodes, x) == EndKey(nodes, e);
        assert x in r;
      }
    }
  }
}

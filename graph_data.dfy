/**
 * The records the NLGraph.js engine works on (src/NLGraph.js:709-873): nodes, links and what a
 * link's `source` and `target` refer to, together with the first-occurrence registries that
 * readData_ builds and the node keys it derives from them.
 */
module GraphData {
  import opened Wrappers
  import opened Util
  import opened Keys

  /** The property name a value becomes when used as an object key: undefined becomes "undefined". */
  function PropName(v: Option<string>): string
  {
    v.GetOr(Undefined)
  }

  /** A node record: `key` is absent until readData_ writes it. */
  datatype Node = Node(id: Option<string>, nodeType: Option<string>, attr: Json, style: Json, key: Option<string>)

  /**
   * What `link.source` or `link.target` refers to. readData_ points a link whose endpoints it
   * finds at records of `nodes`, given here by position. Any other endpoint is a record outside
   * `nodes`: the `{id, type}` of the input, or a node record that has been spliced out of
   * `nodes`, which keeps the key it was last given.
   */
  datatype Endpoint =
    | InNodes(index: nat)
    | Detached(id: Option<string>, nodeType: Option<string>, key: Option<string>)

  /** What the last readData_ wrote on a link besides its key. */
  datatype Rank = Rank(linkIndex: int, totalNoLinks: nat, linkPos: Option<int>)

  datatype Link = Link(
    source: Endpoint,
    target: Endpoint,
    etype: Option<string>,
    attr: Json,
    style: Json,
    directed: Json,
    key: Option<string>,
    rank: Option<Rank>)

  predicate EndpointOk(nodes: seq<Node>, e: Endpoint)
  {
    e.InNodes? ==> e.index < |nodes|
  }

  /** Every endpoint that refers into `nodes` refers to one of its records. */
  predicate LinksOk(nodes: seq<Node>, links: seq<Link>)
  {
    forall j :: 0 <= j < |links| ==> EndpointOk(nodes, links[j].source) && EndpointOk(nodes, links[j].target)
  }

  function EndId(nodes: seq<Node>, e: Endpoint): Option<string>
    requires EndpointOk(nodes, e)
  {
    match e
    case InNodes(i) => nodes[i].id
    case Detached(id, _, _) => id
  }

  function EndType(nodes: seq<Node>, e: Endpoint): Option<string>
    requires EndpointOk(nodes, e)
  {
    match e
    case InNodes(i) => nodes[i].nodeType
    case Detached(_, t, _) => t
  }

  function EndKey(nodes: seq<Node>, e: Endpoint): Option<string>
    requires EndpointOk(nodes, e)
  {
    match e
    case InNodes(i) => nodes[i].key
    case Detached(_, _, k) => k
  }

  /**
   * A registry after the first `n` names: each name seen so far mapped to the position where it
   * first appears (`if (!map.hasOwnProperty(x)) map[x] = i`).
   */
  function Registry(names: seq<string>, n: nat): map<string, nat>
    requires n <= |names|
  {
    if n == 0 then map[]
    else
      var m := Registry(names, n - 1);
      if names[n - 1] in m then m else m[names[n - 1] := n - 1]
  }

  /** The registry holds exactly the names seen, each at the position of its first occurrence. */
  lemma {:induction false} RegistryFirst(names: seq<string>, n: nat)
    requires n <= |names|
    ensures var r := Registry(names, n);
      (forall k :: k in r ==> r[k] < n && names[r[k]] == k) &&
      (forall j :: 0 <= j < n ==> names[j] in r && r[names[j]] <= j)
  {
    if n > 0 {
      RegistryFirst(names, n - 1);
    }
  }

  /** One step of the registry loop. */
  lemma RegistryStep(names: seq<string>, i: nat)
    requires i < |names|
    ensures Registry(names, i + 1) ==
      if names[i] in Registry(names, i) then Registry(names, i) else Registry(names, i)[names[i] := i]
  {
  }

  /** A registry maps different names to different positions. */
  lemma RegistryInjective(names: seq<string>, n: nat, a: string, b: string)
    requires n <= |names| && a in Registry(names, n) && b in Registry(names, n)
    ensures Registry(names, n)[a] == Registry(names, n)[b] <==> a == b
  {
    RegistryFirst(names, n);
  }

  /** A name keeps the position it was first registered under. */
  lemma RegistryStable(names: seq<string>, i: nat, n: nat, k: string)
    requires i <= n <= |names| && k in Registry(names, i)
    ensures k in Registry(names, n) && Registry(names, n)[k] == Registry(names, i)[k]
  {
    RegistryFirst(names, i);
    RegistryFirst(names, n);
    var p := Registry(names, i)[k];
    assert names[p] == k;
  }

  /** The name at position i is registered by step i + 1, and never re-registered afterwards. */
  lemma RegistryAt(names: seq<string>, i: nat, n: nat)
    requires i < n <= |names|
    ensures names[i] in Registry(names, i + 1)
    ensures names[i] in Registry(names, n) && Registry(names, n)[names[i]] == Registry(names, i + 1)[names[i]]
  {
    RegistryStep(names, i);
    RegistryStable(names, i + 1, n, names[i]);
  }

  /** The position the registry gives a name, as the index part of a key. */
  function RegistryPart(m: map<string, nat>, name: Option<string>): Option<nat>
  {
    Get(m, PropName(name))
  }

  /** `nodeIDsMap[id] + "-" + nodeTypesMap[type]` */
  function NodeKeyOf(idsMap: map<string, nat>, typesMap: map<string, nat>, id: Option<string>, nodeType: Option<string>): string
  {
    NodeKey(RegistryPart(idsMap, id), RegistryPart(typesMap, nodeType))
  }

  function IdNames(nodes: seq<Node>): seq<string>
  {
    seq(|nodes|, i requires 0 <= i < |nodes| => PropName(nodes[i].id))
  }

  function TypeNames(nodes: seq<Node>): seq<string>
  {
    seq(|nodes|, i requires 0 <= i < |nodes| => PropName(nodes[i].nodeType))
  }

  /** The id registry `nodeIDsMap` of a node list. */
  function IdsMap(nodes: seq<Node>): map<string, nat>
  {
    Registry(IdNames(nodes), |nodes|)
  }

  /** The type registry `nodeTypesMap` of a node list. */
  function TypesMap(nodes: seq<Node>): map<string, nat>
  {
    Registry(TypeNames(nodes), |nodes|)
  }

  /**
   * Under complete registries, two registered ids and types give the same key exactly when they
   * are the same property names.
   */
  lemma NodeKeyOfInjective(nodes: seq<Node>, id1: Option<string>, t1: Option<string>, id2: Option<string>, t2: Option<string>)
    requires PropName(id1) in IdsMap(nodes) && PropName(t1) in TypesMap(nodes)
    ensures NodeKeyOf(IdsMap(nodes), TypesMap(nodes), id1, t1) == NodeKeyOf(IdsMap(nodes), TypesMap(nodes), id2, t2)
      <==> PropName(id1) == PropName(id2) && PropName(t1) == PropName(t2)
  {
    var ids, types := IdsMap(nodes), TypesMap(nodes);
    NodeKeyInjective(RegistryPart(ids, id1), RegistryPart(types, t1), RegistryPart(ids, id2), RegistryPart(types, t2));
    if PropName(id2) in ids {
      RegistryInjective(IdNames(nodes), |nodes|, PropName(id1), PropName(id2));
    }
    if PropName(t2) in types {
      RegistryInjective(TypeNames(nodes), |nodes|, PropName(t1), PropName(t2));
    }
  }
}

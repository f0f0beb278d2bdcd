/**
 * The two node loops of readData_ (src/NLGraph.js:758-770): register every id and type at its
 * first position and key each node `idIndex-typeIndex`, then keep the first node of each key
 * in `nodesObj`.
 */
module NodeIndex {
  import opened Wrappers
  import opened Keys
  import opened GraphData

  /** The nodes after the first loop: each carries the key of its id and type. */
  function KeyedNodes(nodes: seq<Node>): seq<Node>
  {
    seq(|nodes|, i requires 0 <= i < |nodes| =>
      nodes[i].(key := Some(NodeKeyOf(IdsMap(nodes), TypesMap(nodes), nodes[i].id, nodes[i].nodeType))))
  }

  /** The first loop: registries and keys, written onto the records as it goes. */
  method KeyNodes(nodes: seq<Node>) returns (keyed: seq<Node>, nodeIDsMap: map<string, nat>, nodeTypesMap: map<string, nat>)
    ensures nodeIDsMap == IdsMap(nodes) && nodeTypesMap == TypesMap(nodes)
    ensures keyed == KeyedNodes(nodes)
  {
    nodeIDsMap, nodeTypesMap := map[], map[];
    keyed := [];
    var i := 0;
    while i < |nodes|
      invariant 0 <= i <= |nodes|
      invariant nodeIDsMap == Registry(IdNames(nodes), i) && nodeTypesMap == Registry(TypeNames(nodes), i)
      invariant keyed == KeyedNodes(nodes)[..i]
    {
      var d := nodes[i];
      if PropName(d.id) !in nodeIDsMap {
        nodeIDsMap := nodeIDsMap[PropName(d.id) := i];
      }
      if PropName(d.nodeType) !in nodeTypesMap {
        nodeTypesMap := nodeTypesMap[PropName(d.nodeType) := i];
      }
      assert IdNames(nodes)[i] == PropName(d.id) && TypeNames(nodes)[i] == PropName(d.nodeType);
      RegistryStep(IdNames(nodes), i);
      RegistryStep(TypeNames(nodes), i);
      var key := NodeKey(Some(nodeIDsMap[PropName(d.id)]), Some(nodeTypesMap[PropName(d.nodeType)]));
      KeyAtStep(nodes, i);
      keyed := keyed + [d.(key := Some(key))];
      assert KeyedNodes(nodes)[..i + 1] == KeyedNodes(nodes)[..i] + [KeyedNodes(nodes)[i]];
      i := i + 1;
    }
    assert KeyedNodes(nodes)[..|nodes|] == KeyedNodes(nodes);
  }

  /** The key the first loop writes on node i, from the registries as they stand then, is its final key. */
  lemma KeyAtStep(nodes: seq<Node>, i: nat)
    requires i < |nodes|
    ensures var ids, types := Registry(IdNames(nodes), i + 1), Registry(TypeNames(nodes), i + 1);
      PropName(nodes[i].id) in ids && PropName(nodes[i].nodeType) in types &&
      KeyedNodes(nodes)[i] == nodes[i].(key := Some(NodeKey(Some(ids[PropName(nodes[i].id)]), Some(types[PropName(nodes[i].nodeType)]))))
  {
    assert IdNames(nodes)[i] == PropName(nodes[i].id);
    assert TypeNames(nodes)[i] == PropName(nodes[i].nodeType);
    RegistryAt(IdNames(nodes), i, |nodes|);
    RegistryAt(TypeNames(nodes), i, |nodes|);
  }

  /** The keys of a node list, as property names. */
  function KeyNames(nodes: seq<Node>): (r: seq<string>)
    ensures |r| == |nodes| && forall i :: 0 <= i < |nodes| ==> r[i] == PropName(nodes[i].key)
  {
    seq(|nodes|, i requires 0 <= i < |nodes| => PropName(nodes[i].key))
  }

  /** `nodesObj`: each key mapped to the first node carrying it (`nodesObj[k] = nodesObj[k] || node`). */
  function NodesObj(keyed: seq<Node>): map<string, nat>
  {
    Registry(KeyNames(keyed), |keyed|)
  }

  /** The second loop. */
  method BuildNodesObj(keyed: seq<Node>) returns (nodesObj: map<string, nat>)
    ensures nodesObj == NodesObj(keyed)
  {
    nodesObj := map[];
    var i := 0;
    while i < |keyed|
      invariant 0 <= i <= |keyed|
      invariant nodesObj == Registry(KeyNames(keyed), i)
    {
      var k := PropName(keyed[i].key);
      assert KeyNames(keyed)[i] == k;
      RegistryStep(KeyNames(keyed), i);
      if k !in nodesObj {
        nodesObj := nodesObj[k := i];
      }
      i := i + 1;
    }
  }

  /**
   * Each node's key is built from the first positions of its id and of its type, and two nodes get
   * the same key exactly when their ids are the same and their types are the same (as property names).
   */
  lemma KeyedNodesKeys(nodes: seq<Node>, i: nat, j: nat)
    requires i < |nodes| && j < |nodes|
    ensures var ids, types := IdsMap(nodes), TypesMap(nodes);
      var a, t := PropName(nodes[i].id), PropName(nodes[i].nodeType);
      a in ids && t in types &&
      KeyedNodes(nodes)[i].key == Some(NodeKey(Some(ids[a]), Some(types[t]))) &&
      ids[a] <= i && PropName(nodes[ids[a]].id) == a && (forall p :: 0 <= p < ids[a] ==> PropName(nodes[p].id) != a) &&
      types[t] <= i && PropName(nodes[types[t]].nodeType) == t && (forall p :: 0 <= p < types[t] ==> PropName(nodes[p].nodeType) != t)
    ensures KeyedNodes(nodes)[i].key == KeyedNodes(nodes)[j].key <==>
      PropName(nodes[i].id) == PropName(nodes[j].id) && PropName(nodes[i].nodeType) == PropName(nodes[j].nodeType)
  {
    assert IdNames(nodes)[i] == PropName(nodes[i].id);
    assert TypeNames(nodes)[i] == PropName(nodes[i].nodeType);
    RegistryFirst(IdNames(nodes), |nodes|);
    RegistryFirst(TypeNames(nodes), |nodes|);
    forall p | 0 <= p < |nodes|
      ensures IdNames(nodes)[p] == PropName(nodes[p].id) && TypeNames(nodes)[p] == PropName(nodes[p].nodeType)
    {
    }
    NodeKeyOfInjective(nodes, nodes[i].id, nodes[i].nodeType, nodes[j].id, nodes[j].nodeType);
  }

  /** Keying changes nothing but the key. */
  lemma KeyedNodesKeepData(nodes: seq<Node>)
    ensures |KeyedNodes(nodes)| == |nodes|
    ensures forall i :: 0 <= i < |nodes| ==> KeyedNodes(nodes)[i].(key := None) == nodes[i].(key := None)
    ensures IdsMap(KeyedNodes(nodes)) == IdsMap(nodes) && TypesMap(KeyedNodes(nodes)) == TypesMap(nodes)
  {
    assert IdNames(KeyedNodes(nodes)) == IdNames(nodes);
    assert TypeNames(KeyedNodes(nodes)) == TypeNames(nodes);
  }

  /**
   * `nodesObj` holds exactly the node keys, each mapped to the first node carrying it; node keys are
   * never "undefined" and hold no `_`.
   */
  lemma NodesObjFirst(nodes: seq<Node>, k: string)
    ensures var keyed := KeyedNodes(nodes); var obj := NodesObj(keyed);
      (k in obj <==> exists i :: 0 <= i < |nodes| && keyed[i].key == Some(k)) &&
      (k in obj ==> obj[k] < |nodes| && keyed[obj[k]].key == Some(k) &&
                    forall i :: 0 <= i < obj[k] ==> keyed[i].key != Some(k))
    ensures k in NodesObj(KeyedNodes(nodes)) ==> k != Undefined && LinkSep !in k
  {
    var keyed := KeyedNodes(nodes);
    var names := KeyNames(keyed);
    var obj := NodesObj(keyed);
    RegistryFirst(names, |keyed|);
    if k in obj {
      var p := obj[k];
      forall i | 0 <= i < p
        ensures keyed[i].key != Some(k)
      {
        assert names[i] == PropName(keyed[i].key);
      }
      var ids, types := IdsMap(nodes), TypesMap(nodes);
      var i0 := nodes[p];
      NodeKeyIsNotUndefined(RegistryPart(ids, i0.id), RegistryPart(types, i0.nodeType));
    } else {
      forall i | 0 <= i < |nodes|
        ensures keyed[i].key != Some(k)
      {
        assert names[i] == PropName(keyed[i].key);
      }
    }
  }
}

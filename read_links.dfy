/**
 * The link loop of readData_ (src/NLGraph.js:774-813): each link gets the key
 * `srcKey_tgtKey_etypeIndex`, the first link of each key is kept in `linksObj`, every link
 * records its pair in `connectedMap`, and a link whose two endpoints are both found among the
 * keyed nodes is entered in `outgoing` and `incoming` and pointed at those nodes.
 */
module LinkIndex {
  import opened Wrappers
  import opened Keys
  import opened GraphData
  import opened NodeIndex

  /** What the link loop reads: the keyed nodes, the node registries and `nodesObj`. */
  datatype Env = Env(nodes: seq<Node>, idsMap: map<string, nat>, typesMap: map<string, nat>, nodesObj: map<string, nat>)

  /** The environment the two node loops leave for a node list. */
  function EnvOf(nodes: seq<Node>): Env
  {
    var keyed := KeyedNodes(nodes);
    Env(keyed, IdsMap(nodes), TypesMap(nodes), NodesObj(keyed))
  }

  predicate LinkOk(env: Env, l: Link)
  {
    EndpointOk(env.nodes, l.source) && EndpointOk(env.nodes, l.target)
  }

  /** `n0Key`: the key computed from the source's id and type. */
  function N0Key(env: Env, l: Link): string
    requires LinkOk(env, l)
  {
    NodeKeyOf(env.idsMap, env.typesMap, EndId(env.nodes, l.source), EndType(env.nodes, l.source))
  }

  /** `n1Key`: the key computed from the target's id and type. */
  function N1Key(env: Env, l: Link): string
    requires LinkOk(env, l)
  {
    NodeKeyOf(env.idsMap, env.typesMap, EndId(env.nodes, l.target), EndType(env.nodes, l.target))
  }

  /** Both endpoints are found in `nodesObj`, so the loop does not return early for this link. */
  predicate Resolves(env: Env, l: Link)
    requires LinkOk(env, l)
  {
    N0Key(env, l) in env.nodesObj && N1Key(env, l) in env.nodesObj
  }

  function EtypeNames(links: seq<Link>): seq<string>
  {
    seq(|links|, j requires 0 <= j < |links| => PropName(links[j].etype))
  }

  /** `linkTypesMap`: each etype mapped to the position of the first link carrying it. */
  function LinkTypesMap(links: seq<Link>): map<string, nat>
  {
    Registry(EtypeNames(links), |links|)
  }

  /** The key readData_ gives link j: `n0Key_n1Key_etypeIndex`. */
  function LinkKeyAt(env: Env, links: seq<Link>, j: nat): string
    requires j < |links| && LinkOk(env, links[j])
  {
    var l := links[j];
    PairKey(PairKey(N0Key(env, l), N1Key(env, l)), KeyPart(Get(LinkTypesMap(links), PropName(l.etype))))
  }

  predicate AllLinksOk(env: Env, links: seq<Link>)
  {
    forall j :: 0 <= j < |links| ==> LinkOk(env, links[j])
  }

  function LinkKeyNames(env: Env, links: seq<Link>): seq<string>
    requires AllLinksOk(env, links)
  {
    seq(|links|, j requires 0 <= j < |links| => LinkKeyAt(env, links, j))
  }

  /** The `n0Key_n1Key` each link records in `connectedMap`. */
  function PairNames(env: Env, links: seq<Link>): seq<string>
    requires AllLinksOk(env, links)
  {
    seq(|links|, j requires 0 <= j < |links| => PairKey(N0Key(env, links[j]), N1Key(env, links[j])))
  }

  /** Link j as the loop leaves it: keyed, and pointed at the nodes of its endpoint keys when both are found. */
  function ProcessedLink(env: Env, links: seq<Link>, j: nat): Link
    requires j < |links| && LinkOk(env, links[j])
  {
    var l := links[j];
    var keyed := l.(key := Some(LinkKeyAt(env, links, j)));
    if Resolves(env, l) then
      keyed.(source := InNodes(env.nodesObj[N0Key(env, l)]), target := InNodes(env.nodesObj[N1Key(env, l)]))
    else keyed
  }

  /** The distinct names among the first n, in order of first appearance: the key order of an object filled in that order. */
  function FirstOrder(names: seq<string>, n: nat): seq<string>
    requires n <= |names|
  {
    if n == 0 then []
    else
      var f := FirstOrder(names, n - 1);
      if names[n - 1] in Registry(names, n - 1) then f else f + [names[n - 1]]
  }

  /** Each of the first n names mapped to the position where it last appears (`map[k] = i` on every step). */
  function LastIndex(names: seq<string>, n: nat): map<string, nat>
    requires n <= |names|
  {
    if n == 0 then map[] else LastIndex(names, n - 1)[names[n - 1] := n - 1]
  }

  /**
   * One link as `outgoing` (or `incoming`) sees it: whether it was entered at all, the key the
   * guard tests (`n0.key`), and the pair `from -> to` it records.
   */
  datatype Arrival = Arrival(resolved: bool, guard: string, from: string, to: string)

  /**
   * `outgoing` after n links: when the guard key is not yet present, the entry of `from` is reset
   * to `{}`; then `to` is added to it.
   */
  function AdjAfter(arr: seq<Arrival>, n: nat): map<string, set<string>>
    requires n <= |arr|
  {
    if n == 0 then map[]
    else
      var m := AdjAfter(arr, n - 1);
      var a := arr[n - 1];
      if !a.resolved then m
      else
        var m0 := if a.guard in m then m else m[a.from := {}];
        m0[a.from := Members(m0, a.from) + {a.to}]
  }

  function Members(m: map<string, set<string>>, k: string): set<string>
  {
    if k in m then m[k] else {}
  }

  /**
   * Where the link loop throws a TypeError (src/NLGraph.js:796-806): the guard key is already in
   * the table while the key about to be written to is not, so `outgoing[n0Key]` is undefined
   * when it is indexed. `AdjAfter` goes on and files a fresh entry for `from` instead.
   */
  predicate GuardStale(arr: seq<Arrival>, j: nat)
    requires j < |arr|
  {
    var m := AdjAfter(arr, j);
    arr[j].resolved && arr[j].guard in m && arr[j].from !in m
  }

  /**
   * A link entered from `0-0`, then a link from `1-0` whose endpoint still carries the key `0-0`:
   * the source throws at the second link, where the model files `1-0 -> {0-0}`.
   */
  lemma StaleGuardExample()
    ensures var arr := [Arrival(true, "0-0", "0-0", "0-0"), Arrival(true, "0-0", "1-0", "0-0")];
      && GuardStale(arr, 1)
      && AdjAfter(arr, 2) == map["0-0" := {"0-0"}, "1-0" := {"0-0"}]
  {
    var arr := [Arrival(true, "0-0", "0-0", "0-0"), Arrival(true, "0-0", "1-0", "0-0")];
    var none: set<string> := {};
    var m0: map<string, set<string>> := map["0-0" := none];
    assert Members(m0, "0-0") == none;
    assert AdjAfter(arr, 1) == m0["0-0" := none + {"0-0"}];
    assert none + {"0-0"} == {"0-0"};
    assert AdjAfter(arr, 1) == map["0-0" := {"0-0"}];
    assert "1-0" != "0-0" && Members(AdjAfter(arr, 1), "1-0") == {};
  }

  function OutArrivals(env: Env, links: seq<Link>): seq<Arrival>
    requires AllLinksOk(env, links)
  {
    seq(|links|, j requires 0 <= j < |links| =>
      Arrival(Resolves(env, links[j]), PropName(EndKey(env.nodes, links[j].source)), N0Key(env, links[j]), N1Key(env, links[j])))
  }

  function InArrivals(env: Env, links: seq<Link>): seq<Arrival>
    requires AllLinksOk(env, links)
  {
    seq(|links|, j requires 0 <= j < |links| =>
      Arrival(Resolves(env, links[j]), PropName(EndKey(env.nodes, links[j].target)), N1Key(env, links[j]), N0Key(env, links[j])))
  }

  /** The first n links as the loop leaves them. */
  function ProcessedLinks(env: Env, links: seq<Link>, n: nat): seq<Link>
    requires AllLinksOk(env, links) && n <= |links|
  {
    if n == 0 then [] else ProcessedLinks(env, links, n - 1) + [ProcessedLink(env, links, n - 1)]
  }

  /** The tables the link loop fills, and the links as it leaves them. */
  datatype LinkTables = LinkTables(
    linkTypesMap: map<string, nat>,
    linkKeys: seq<string>,
    linksObj: map<string, nat>,
    connectedMap: map<string, nat>,
    incoming: map<string, set<string>>,
    outgoing: map<string, set<string>>,
    links: seq<Link>)

  /** The tables and links after the callback has run on the first n links. */
  function TablesAfter(env: Env, links: seq<Link>, n: nat): LinkTables
    requires AllLinksOk(env, links) && n <= |links|
  {
    var keyNames := LinkKeyNames(env, links);
    LinkTables(
      Registry(EtypeNames(links), n),
      FirstOrder(keyNames, n),
      Registry(keyNames, n),
      LastIndex(PairNames(env, links), n),
      AdjAfter(InArrivals(env, links), n),
      AdjAfter(OutArrivals(env, links), n),
      ProcessedLinks(env, links, n))
  }

  /** What the link loop leaves: each table described by what it holds. */
  function LinkTablesOf(env: Env, links: seq<Link>): LinkTables
    requires AllLinksOk(env, links)
  {
    TablesAfter(env, links, |links|)
  }

  /** The etype index the loop reads at link i is the one the finished registry holds. */
  lemma EtypeIndexStable(links: seq<Link>, i: nat)
    requires i < |links|
    ensures var names := EtypeNames(links); var e := PropName(links[i].etype);
      Registry(names, i + 1) == (if e in Registry(names, i) then Registry(names, i) else Registry(names, i)[e := i]) &&
      e in Registry(names, i + 1) && e in LinkTypesMap(links) && LinkTypesMap(links)[e] == Registry(names, i + 1)[e]
  {
    var names := EtypeNames(links);
    RegistryStep(names, i);
    RegistryStable(names, i + 1, |links|, names[i]);
  }

  /** What link i contributes to each table, spelled out from its endpoints. */
  lemma LinkAt(env: Env, links: seq<Link>, i: nat)
    requires AllLinksOk(env, links) && i < |links|
    ensures var l := links[i]; var k0, k1 := N0Key(env, l), N1Key(env, l);
      var e := PropName(l.etype);
      var key := PairKey(PairKey(k0, k1), NatToString(Registry(EtypeNames(links), i + 1)[e]));
      var res := k0 in env.nodesObj && k1 in env.nodesObj;
      e in Registry(EtypeNames(links), i + 1) &&
      LinkKeyNames(env, links)[i] == key &&
      PairNames(env, links)[i] == PairKey(k0, k1) &&
      OutArrivals(env, links)[i] == Arrival(res, PropName(EndKey(env.nodes, l.source)), k0, k1) &&
      InArrivals(env, links)[i] == Arrival(res, PropName(EndKey(env.nodes, l.target)), k1, k0) &&
      ProcessedLink(env, links, i) ==
        (if res then l.(key := Some(key), source := InNodes(env.nodesObj[k0]), target := InNodes(env.nodesObj[k1]))
         else l.(key := Some(key)))
  {
    EtypeIndexStable(links, i);
  }

  /** Each link as the loop leaves it. */
  lemma {:induction false} ProcessedLinksAt(env: Env, links: seq<Link>, n: nat)
    requires AllLinksOk(env, links) && n <= |links|
    ensures |ProcessedLinks(env, links, n)| == n
    ensures forall j :: 0 <= j < n ==> ProcessedLinks(env, links, n)[j] == ProcessedLink(env, links, j)
  {
    if n > 0 {
      ProcessedLinksAt(env, links, n - 1);
      var prev := ProcessedLinks(env, links, n - 1);
      var last := ProcessedLink(env, links, n - 1);
      assert ProcessedLinks(env, links, n) == prev + [last];
      forall j | 0 <= j < n
        ensures (prev + [last])[j] == ProcessedLink(env, links, j)
      {
        if j < n - 1 {
          assert (prev + [last])[j] == prev[j];
        }
      }
    }
  }

  /**
   * `linkKeys` lists each key once, in the order of first appearance: the keys of `linksObj`,
   * each before every key first seen after it.
   */
  lemma {:induction false} FirstOrderFacts(names: seq<string>, n: nat)
    requires n <= |names|
    ensures var f, r := FirstOrder(names, n), Registry(names, n);
      && (forall k :: k in f <==> k in r)
      && (forall a, b :: 0 <= a < b < |f| ==> f[a] in r && f[b] in r && r[f[a]] < r[f[b]])
  {
    if n > 0 {
      FirstOrderFacts(names, n - 1);
      RegistryFirst(names, n - 1);
    }
  }

  /** The distinct entries of `linkKeys`. */
  lemma FirstOrderDistinct(names: seq<string>, n: nat, a: nat, b: nat)
    requires n <= |names| && a < b < |FirstOrder(names, n)|
    ensures FirstOrder(names, n)[a] != FirstOrder(names, n)[b]
  {
    FirstOrderFacts(names, n);
  }

  /** Every name seen is in `connectedMap`, mapped to the position where it last appears. */
  lemma {:induction false} LastIndexFacts(names: seq<string>, n: nat)
    requires n <= |names|
    ensures var m := LastIndex(names, n);
      && (forall k :: k in m ==> m[k] < n && names[m[k]] == k)
      && (forall j :: 0 <= j < n ==> names[j] in m && j <= m[names[j]])
  {
    if n > 0 {
      LastIndexFacts(names, n - 1);
    }
  }

  /** The `from` keys of the entered arrivals among the first n. */
  function Sources(arr: seq<Arrival>, n: nat): set<string>
    requires n <= |arr|
  {
    set j | 0 <= j < n && arr[j].resolved :: arr[j].from
  }

  /** The `to` keys entered from `k` among the first n arrivals. */
  function TargetsFrom(arr: seq<Arrival>, n: nat, k: string): set<string>
    requires n <= |arr|
  {
    set j | 0 <= j < n && arr[j].resolved && arr[j].from == k :: arr[j].to
  }

  lemma SourcesStep(arr: seq<Arrival>, n: nat, k: string)
    requires 0 < n <= |arr|
    ensures var a := arr[n - 1];
      && Sources(arr, n) == Sources(arr, n - 1) + (if a.resolved then {a.from} else {})
      && TargetsFrom(arr, n, k) == TargetsFrom(arr, n - 1, k) + (if a.resolved && a.from == k then {a.to} else {})
  {
    var a := arr[n - 1];
    assert a.resolved ==> a.from in Sources(arr, n);
    assert a.resolved && a.from == k ==> a.to in TargetsFrom(arr, n, k);
  }

  /** A key that no entered arrival comes from has no targets. */
  lemma NoSourceNoTargets(arr: seq<Arrival>, n: nat, k: string)
    requires n <= |arr| && k !in Sources(arr, n)
    ensures TargetsFrom(arr, n, k) == {}
  {
    forall p | 0 <= p < n && arr[p].resolved
      ensures arr[p].from != k
    {
      assert arr[p].from in Sources(arr, n);
    }
  }

  /**
   * Only presence is reliable: the keys of `outgoing` are exactly the sources of the links
   * entered, and each entry holds only targets of links entered from that source.
   */
  lemma {:induction false} AdjAfterShape(arr: seq<Arrival>, n: nat)
    requires n <= |arr|
    ensures AdjAfter(arr, n).Keys == Sources(arr, n)
    ensures forall k :: k in AdjAfter(arr, n) ==> AdjAfter(arr, n)[k] <= TargetsFrom(arr, n, k)
  {
    if n > 0 {
      AdjAfterShape(arr, n - 1);
      var m := AdjAfter(arr, n);
      SourcesStep(arr, n, "");
      forall k | k in m
        ensures m[k] <= TargetsFrom(arr, n, k)
      {
        SourcesStep(arr, n, k);
      }
    }
  }

  /** The entry a resolved arrival leaves, and what a later arrival from another key leaves of it. */
  lemma AdjAfterStepFacts(arr: seq<Arrival>, n: nat, k: string)
    requires 0 < n <= |arr|
    ensures var a, m, m' := arr[n - 1], AdjAfter(arr, n - 1), AdjAfter(arr, n);
      && (a.resolved && a.from == k ==> k in m' && a.to in m'[k])
      && (a.resolved && a.from == k && a.guard !in m ==> m'[k] == {a.to})
      && (a.resolved && a.from == k && a.guard == k && k in m ==> m'[k] == m[k] + {a.to})
      && (!(a.resolved && a.from == k) ==> (k in m' <==> k in m) && (k in m ==> m'[k] == m[k]))
  {
  }

  /** The target of the last arrival entered from a key is in that key's entry. */
  lemma {:induction false} AdjAfterLast(arr: seq<Arrival>, n: nat, j: nat)
    requires j < n <= |arr| && arr[j].resolved
    requires forall p :: j < p < n ==> !(arr[p].resolved && arr[p].from == arr[j].from)
    ensures arr[j].from in AdjAfter(arr, n) && AdjAfter(arr, n)[arr[j].from] == AdjAfter(arr, j + 1)[arr[j].from]
    ensures arr[j].to in AdjAfter(arr, n)[arr[j].from]
    decreases n
  {
    AdjAfterStepFacts(arr, j + 1, arr[j].from);
    if n > j + 1 {
      AdjAfterLast(arr, n - 1, j);
      AdjAfterStepFacts(arr, n, arr[j].from);
    }
  }

  /**
   * The reset: when the guard of the last arrival from a key was not present, that key's entry
   * holds that arrival's target and nothing else.
   */
  lemma AdjAfterReset(arr: seq<Arrival>, n: nat, j: nat)
    requires j < n <= |arr| && arr[j].resolved && arr[j].guard !in AdjAfter(arr, j)
    requires forall p :: j < p < n ==> !(arr[p].resolved && arr[p].from == arr[j].from)
    ensures arr[j].from in AdjAfter(arr, n) && AdjAfter(arr, n)[arr[j].from] == {arr[j].to}
  {
    AdjAfterLast(arr, n, j);
    AdjAfterStepFacts(arr, j + 1, arr[j].from);
  }

  /** When every guard is the key it guards, the entries accumulate: each holds all targets entered from it. */
  lemma {:induction false} AdjAfterAccumulates(arr: seq<Arrival>, n: nat)
    requires n <= |arr|
    requires forall j :: 0 <= j < n && arr[j].resolved ==> arr[j].guard == arr[j].from
    ensures forall k :: k in AdjAfter(arr, n) ==> AdjAfter(arr, n)[k] == TargetsFrom(arr, n, k)
  {
    if n > 0 {
      AdjAfterAccumulates(arr, n - 1);
      var m := AdjAfter(arr, n);
      forall k | k in m
        ensures m[k] == TargetsFrom(arr, n, k)
      {
        SourcesStep(arr, n, k);
        AdjAfterStepFacts(arr, n, k);
        AdjAfterShape(arr, n - 1);
        if k !in AdjAfter(arr, n - 1) {
          NoSourceNoTargets(arr, n - 1, k);
        }
      }
    }
  }

  /** The callback of the link loop, run on link i with the tables `t` left by the links before it. */
  method ReadLink(env: Env, links: seq<Link>, i: nat, t: LinkTables) returns (t': LinkTables)
    requires AllLinksOk(env, links) && i < |links| && t == TablesAfter(env, links, i)
    ensures t' == TablesAfter(env, links, i + 1)
  {
    var link := links[i];
    var n0, n1 := link.source, link.target;
    var n0Key := NodeKeyOf(env.idsMap, env.typesMap, EndId(env.nodes, n0), EndType(env.nodes, n0));
    var n1Key := NodeKeyOf(env.idsMap, env.typesMap, EndId(env.nodes, n1), EndType(env.nodes, n1));
    LinkAt(env, links, i);
    var etype := PropName(link.etype);
    RegistryStep(EtypeNames(links), i);
    var linkTypesMap := if etype in t.linkTypesMap then t.linkTypesMap else t.linkTypesMap[etype := i];
    var key := PairKey(PairKey(n0Key, n1Key), NatToString(linkTypesMap[etype]));
    link := link.(key := Some(key));
    RegistryStep(LinkKeyNames(env, links), i);
    var linkKeys := if key in t.linksObj then t.linkKeys else t.linkKeys + [key];
    var linksObj := if key in t.linksObj then t.linksObj else t.linksObj[key := i];
    var connectedMap := t.connectedMap[PairKey(n0Key, n1Key) := i];
    var incoming, outgoing := t.incoming, t.outgoing;
    if n0Key in env.nodesObj && n1Key in env.nodesObj {
      if PropName(EndKey(env.nodes, n0)) !in outgoing {
        outgoing := outgoing[n0Key := {}];
      }
      if PropName(EndKey(env.nodes, n1)) !in incoming {
        incoming := incoming[n1Key := {}];
      }
      outgoing := outgoing[n0Key := Members(outgoing, n0Key) + {n1Key}];
      incoming := incoming[n1Key := Members(incoming, n1Key) + {n0Key}];
      link := link.(source := InNodes(env.nodesObj[n0Key]), target := InNodes(env.nodesObj[n1Key]));
    }
    t' := LinkTables(linkTypesMap, linkKeys, linksObj, connectedMap, incoming, outgoing, t.links + [link]);
  }

  /** The link loop of readData_: the callback on every link in order. */
  method ReadLinks(env: Env, links: seq<Link>) returns (t: LinkTables)
    requires AllLinksOk(env, links)
    ensures t == LinkTablesOf(env, links)
  {
    t := LinkTables(map[], [], map[], map[], map[], map[], []);
    var i := 0;
    while i < |links|
      invariant 0 <= i <= |links|
      invariant t == TablesAfter(env, links, i)
    {
      t := ReadLink(env, links, i, t);
      i := i + 1;
    }
  }
}

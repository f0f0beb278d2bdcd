# Node-Link-Graph library: a Dafny model of its graph core

The library draws node-link graphs with D3. Underneath the drawing, each graph object keeps an
index of its data: nodes keyed by their id and type, links keyed by their two ends and their
type, adjacency tables, and a count of the parallel links between each pair of nodes. It uses that
index to answer connection queries and to lay out parallel links. This project models that core in
two engines:

- **The current engine** of `src/NLGraph.js`:
  - `readData_` numbers ids and types in order of first appearance, keys every node by
    `idIndex-typeIndex`, and keys every link by `srcKey_tgtKey_etypeIndex`.
  - It builds `nodesObj`, `linksObj`, `connectedMap` and the outgoing and incoming tables.
  - It counts parallel links per unordered pair of nodes, and gives each link its `linkIndex`,
    `totalNoLinks` and `linkPos` from `computeLinePos`.
  - The model also covers the queries (`isConnected`, `hasIncoming/Outgoing/Connections`,
    `getAssociatedLinks/Nodes`) and the edits (`addNode`, `removeNode`, `addEdge`,
    `removeEdge`).
  - It also covers the label-offset tables, the selection-extent test, the zoom clamp, the
    location and point transforms, and how control points of edges are placed and ordered.
- **The earlier engine** of `src/NLGraph-old.js`:
  - The same index, keyed by the plain strings `id-type` and `a_b`.
  - Parallel links are counted by turning a pair key round with `split("_").reverse().join("_")`.
  - Line tensions come in steps of 0.4.
  - The model covers its queries and edits too.
- **The helpers** of `src/util.js`: `objectEquals`, `deepCopyArrayBoundData` and
  `getCoordFromLineWithRatio`.

## Conventions

- JavaScript data is modelled on values:
  - A node record is a `Node` datatype.
  - A link end is either an index into the node list (`InNodes`) or a record of its own
    (`Detached`).
  - A JSON value is a `Json` datatype.
  - `undefined` is `None`. As a property name it is written `"undefined"` (`PropName`).
- **Graph objects are classes.** `Graph.NLGraph` and `GraphOld.OldGraph` are classes whose
  fields the methods reassign. The methods are proved against specification functions:
  - `IndexOf` / `OldIndexOf` say what the index of a node and link list is.
  - The lemmas beside those functions say what the index means in terms of the input lists.
  - The constructor sets only the two arrays. `tablesRead` records whether `readData_` has run
    since. `removeNode` and `removeEdge` read `nodeIDsMap` first, so before that they throw a
    TypeError. The model reports this as `thrown` and changes nothing.
  - `GraphOld.OldGraph` has the same `tablesRead` field.
  - `Ready()` holds in every state an object can reach: just constructed (`tablesRead` false, no
    tables, `NoTables` / `NoOldTables`) or holding what `readData_` computed (`Valid()`). The
    queries require only `Ready()`.
  - A query that may throw returns an `Outcome`: `Returned(value)` or `TypeError`.
- **First occurrence.** Every "first occurrence wins" table (`nodeIDsMap`, `nodesObj`,
  `linksObj`, ...) is a `Registry` of a name list.
- **indexOf.** `Array.prototype.indexOf` is `FirstIndex`.
- **Link keys.**
  - In the current engine the node key separator is `-` and the link key separator is `_`.
  - `PairKey(a, b)` is `a + "_" + b`.
  - The constants `CONTROL_POINT_POS` and `LABEL_LINE_HEIGHT` of `src/global.js` appear as
    `Geometry.ControlPointPos` (0.25) and `Positions.LabelLineHeight` (1).

## Model

| member | source | states |
|---|---|---|
| Util.LooseEqSymmetric | src/util.js:33 | `!=` of two property values is symmetric |
| Util.FirstLoopMeaning | src/util.js:30-35 | the first loop succeeds iff every own key of obj1 is a key of obj2 with a loosely equal value |
| Util.ObjectEqualsMeaning | src/util.js:29-43 | objectEquals holds iff both objects have the same key set and loosely equal values under every key |
| Util.ObjectEqualsSymmetric | src/util.js:29-43 | objectEquals(a, b) == objectEquals(b, a): the second loop is the first with the arguments swapped |
| Util.ObjectEqualsMissingKey | src/util.js:32-38 | a key held by one object and not the other makes objectEquals false |
| Util.DeepCopy | src/util.js:62-86 | the copy is an array or object exactly when the input is, with as many items or properties |
| Util.DeepCopyIsStructurallyEqual | src/util.js:62-86 | the deep copy of any value is structurally equal to it |
| Util.DeepCopyOfObject | src/util.js:78-85 | copying an object keeps its key set, copies every property value, and the copy is objectEquals to the original |
| Util.RatioStaysBetween | src/util.js:110 | for a ratio in [0, 1], `a + ratio * (b - a)` lies between a and b |
| Util.CoordFromLineWithRatioMeaning | src/util.js:108-112 | the result is empty iff the ratio is outside [0, 1]; ratio 0 gives src, ratio 1 gives tgt, and each coordinate lies between those of src and tgt |
| Keys.DigitsValueOfNatToString | src/NLGraph.js:763 | the decimal string of an index reads back as that index |
| Keys.NatToStringInjective | src/NLGraph.js:763 | two indices print the same iff they are equal |
| Keys.KeyPartInjective | src/NLGraph.js:763 | a key part (an index or "undefined") determines the optional index |
| Keys.NodeKeyInjective | src/NLGraph.js:763 | `idIndex-typeIndex` keys are equal iff both indices are equal |
| Keys.NodeKeyIsNotUndefined | src/NLGraph.js:763-768 | no node key is the string "undefined" |
| Keys.PairKeyInjective | src/NLGraph.js:784-788 | `a_b` keys with underscore-free first parts are equal iff both parts are |
| GraphData.RegistryFirst | src/NLGraph.js:761-762 | a first-occurrence table maps each name to the index of its first occurrence |
| GraphData.RegistryStep | src/NLGraph.js:761 | one step of the `hasOwnProperty` guard adds the name only when it is new |
| GraphData.RegistryInjective | src/NLGraph.js:761-762 | two names in a first-occurrence table have the same index iff they are equal |
| GraphData.RegistryStable | src/NLGraph.js:761-762 | later steps never change an index already recorded |
| GraphData.RegistryAt | src/NLGraph.js:761-763 | the index a node reads after its own step is the final one |
| GraphData.NodeKeyOfInjective | src/NLGraph.js:777-778 | for registered names, the key computed from id and type is equal iff the names are |
| NodeIndex.KeyNodes | src/NLGraph.js:758-764 | the loop builds nodeIDsMap and nodeTypesMap as first-occurrence tables and keys every node |
| NodeIndex.BuildNodesObj | src/NLGraph.js:766-770 | the loop builds the first-node-per-key table |
| NodeIndex.KeyedNodesKeys | src/NLGraph.js:758-764 | each node's key holds the first index of its id and of its type; two nodes share a key iff they share id and type |
| NodeIndex.KeyedNodesKeepData | src/NLGraph.js:758-764 | keying changes no other field of any node and no first-occurrence table |
| NodeIndex.NodesObjFirst | src/NLGraph.js:766-770 | a key is in nodesObj iff some node has it, and it maps to the first such node; no such key is "undefined" or holds `_` |
| LinkIndex.ReadLink | src/NLGraph.js:774-813 | one step of the link loop advances the tables to the next prefix of links |
| LinkIndex.ReadLinks | src/NLGraph.js:774-813 | the link loop computes the link tables of the whole list |
| LinkIndex.StaleGuardExample | src/NLGraph.js:796-806 | a second link from `1-0` whose end still carries the key `0-0` meets a stale guard, and the model files `1-0 -> {0-0}` where the source throws |
| LinkIndex.ProcessedLinksAt | src/NLGraph.js:784-810 | the processed list has one link per input link, each keyed and re-pointed as its own step says |
| LinkIndex.FirstOrderFacts | src/NLGraph.js:786 | the keys of linksObj are listed in order of first occurrence, each once |
| LinkIndex.LastIndexFacts | src/NLGraph.js:788 | connectedMap keeps the index of the last link of each pair |
| LinkIndex.AdjAfterAccumulates | src/NLGraph.js:796-806 | when every guard reads the key it guards, the table holds exactly the targets seen for each source |
| LinkIndex.AdjAfterReset | src/NLGraph.js:796-798 | when the guard misses, the row is reset to the one new target |
| Buckets.CountsInvariant | src/NLGraph.js:819-834 | after each prefix, each unordered pair has one bucket, keyed by its first link reversed, counting that pair's links |
| Buckets.SameBucketIff | src/NLGraph.js:822-834 | two links share a bucket iff they join the same unordered pair |
| Buckets.AtMostOneOrientation | src/NLGraph.js:825 | a pair of distinct nodes is never counted under both orientations |
| Buckets.FirstLinkOpensReversedBucket | src/NLGraph.js:824-831 | the first link of a pair opens the bucket under its reversed key |
| Buckets.BucketCountsSum | src/NLGraph.js:819-834 | the counts add up to the number of links |
| Buckets.RankIndexBounds | src/NLGraph.js:849 | each linkIndex lies in [0, count of its pair) |
| Buckets.RankIndexCountsDown | src/NLGraph.js:849 | later links of a pair get smaller indices, consecutive ones one less |
| Buckets.RankIndexDistinct | src/NLGraph.js:849 | two links of the same pair get different indices |
| Buckets.RankIndexOnto | src/NLGraph.js:849 | every index below the count is taken by some link of the pair |
| LinkRanks.CountLink | src/NLGraph.js:822-833 | one reduce step advances the counts to the next prefix |
| LinkRanks.CountPairs | src/NLGraph.js:819-834 | the reduce computes the bucket counts of all links |
| LinkRanks.CopyCounts | src/NLGraph.js:839-842 | the copy has the same keys and values |
| LinkRanks.RankLink | src/NLGraph.js:844-854 | one step decrements the bucket's copy and gives the link its rank |
| LinkRanks.RankLinks | src/NLGraph.js:844-854 | the loop gives every link its rank |
| LinkRanks.RankStep | src/NLGraph.js:845-852 | the key found for a link is its bucket; decrementing its copy keeps the counted-down invariant |
| LinkRanks.RankAtMeaning | src/NLGraph.js:849-852 | each rank has linkIndex in [0, totalNoLinks), totalNoLinks the pair's count, linkPos the slot of computeLinePos at linkIndex |
| LinkRanks.BucketRanks | src/NLGraph.js:849-852 | links of one pair share totalNoLinks, get distinct linkIndex and linkPos, counting down, the first getting totalNoLinks - 1 |
| LinkRanks.BucketRanksOnto | src/NLGraph.js:849 | each index below the count belongs to some link of the pair |
| GraphIndex.ConnectedMapMeaning | src/NLGraph.js:788 | a pair key is in connectedMap iff some link has those ends, and it maps to the last such link |
| GraphIndex.OutgoingMeaning | src/NLGraph.js:793-805 | a key is in outgoing iff a resolved link starts there; every target listed comes from such a link |
| GraphIndex.IncomingMeaning | src/NLGraph.js:793-806 | a key is in incoming iff a resolved link ends there; every source listed comes from such a link |
| GraphIndex.OutgoingExact | src/NLGraph.js:796-805 | when all resolved links start at node-list entries, each outgoing row is exactly the targets of its links |
| GraphIndex.IncomingExact | src/NLGraph.js:801-806 | when all resolved links end at node-list entries, each incoming row is exactly the sources of its links |
| GraphIndex.OutgoingRawReset | src/NLGraph.js:796-797 | a raw source record without a key resets its outgoing row on every link |
| GraphIndex.IncomingRawReset | src/NLGraph.js:801-802 | a raw target record without a key resets its incoming row on every link |
| GraphIndex.UndefinedNeverEntered | src/NLGraph.js:796-806 | no adjacency row is ever stored under "undefined" |
| GraphIndex.LinksObjMeaning | src/NLGraph.js:784-786 | a key is in linksObj iff some link has it, and it maps to the first such link |
| GraphIndex.LinkKeysOrder | src/NLGraph.js:786 | the listed link keys are those of linksObj, in order of first occurrence |
| GraphIndex.LinkKeyInjective | src/NLGraph.js:782-784 | two links have the same key iff they have the same source key, target key and etype |
| GraphIndex.IndexBuckets | src/NLGraph.js:819-834 | the stored multiLinksNumCoord is the bucket table and its counts add up to the number of links |
| GraphIndex.IsConnectedMeaning | src/NLGraph.js:2122-2161 | isConnected holds iff all four arguments are given and the keys are equal or some link joins them either way; it is symmetric |
| GraphIndex.IsConnectedUnregistered | src/NLGraph.js:2153-2161 | two unknown nodes both get the key `undefined-undefined` and are reported connected |
| GraphQueries.AssociatedLinksMeaning | src/NLGraph.js:3122-3135 | the result holds exactly the links, by key, that touch the node |
| GraphQueries.AssociatedNodesMeaning | src/NLGraph.js:3146-3167 | the result holds each neighbour's key once, and only neighbours |
| GraphEdits.StylesTruthy | src/NLGraph.js:902-931 | every default style property is truthy and is overridden by a truthy given value |
| GraphEdits.AddNodeNeverDuplicate | src/NLGraph.js:891-898 | the three-property probe object never equals a stored node record that has a `style` property |
| GraphEdits.AddNodeAlwaysAppends | src/NLGraph.js:889-900 | so on nodes that have a `style` property the duplicate guard never fires and addNode always appends |
| GraphEdits.RemapKeepsEnds | src/NLGraph.js:958-966 | removing a node from the list keeps every link end's id, type and key |
| GraphEdits.SkipSpliceKeeps | src/NLGraph.js:963-968 | the splice loop only removes links, and keeps every link that does not touch the node |
| GraphEdits.SkipSplicePrefix | src/NLGraph.js:963-968 | the loop never changes links before its current index |
| GraphEdits.SkipSpliceSkipsNext | src/NLGraph.js:963-968 | splicing while incrementing skips the next link, which stays even when it touches the node |
| GraphEdits.RemoveNodeFinds | src/NLGraph.js:954-956 | indexOf finds the first node whose id and type match, or -1 when none does |
| GraphEdits.RemoveEdgeFinds | src/NLGraph.js:1050-1056 | indexOf finds the first link with matching ends and type, or -1 when none has them |
| GraphEdits.NodeKeyMatches | src/NLGraph.js:954 | a node's key equals the key computed from (id, type) iff its names match |
| GraphEdits.EdgeKeyMatches | src/NLGraph.js:1050-1054 | a link's key equals the key computed from the arguments iff its ends and type match |
| GraphIndex.FreshEndsNeverThrow | src/NLGraph.js:796-806 | links whose ends point at their nodes or are raw records without a key never meet a stale guard |
| Graph.NLGraph.ReadData | src/NLGraph.js:709-873 | the tables read are the index of the given nodes and links |
| Graph.NLGraph.IsConnected | src/NLGraph.js:2122-2161 | a TypeError exactly when the tables are not yet read; after, connected iff all four arguments are given and the keys are equal or some link joins them either way |
| Graph.NLGraph.HasOutgoingConnections | src/NLGraph.js:2191-2198 | true iff the key is in outgoing; false before the tables are read; after, true iff a resolved link starts at the node |
| Graph.NLGraph.HasIncomingConnections | src/NLGraph.js:2173-2180 | true iff the key is in incoming; false before the tables are read; after, true iff a resolved link ends at the node |
| Graph.NLGraph.HasConnections | src/NLGraph.js:2209-2220 | true iff some link touches the node |
| Graph.NLGraph.GetAssociatedLinks | src/NLGraph.js:3122-3135 | returns exactly the links of linksObj that touch the node |
| Graph.NLGraph.GetAssociatedNodes | src/NLGraph.js:3146-3167 | returns each neighbour once, by key, and only neighbours |
| Graph.NLGraph.AddNode | src/NLGraph.js:888-940 | appends the new node and its edges and re-reads the tables |
| Graph.NLGraph.AddEdge | src/NLGraph.js:996-1033 | a new edge is appended and the tables re-read; an existing one changes nothing |
| Graph.NLGraph.RemoveNode | src/NLGraph.js:951-978 | before the tables are read it throws and changes nothing; after, no match changes nothing, and otherwise the first match is removed, its links spliced with the skip and the tables re-read |
| Graph.NLGraph.RemoveEdge | src/NLGraph.js:1047-1066 | before the tables are read it throws and changes nothing; after, no match changes nothing, and otherwise the first matching link is removed and the tables re-read |
| Positions.ComputeLinePos | src/NLGraph.js:1783-1821 | the loop builds the slot table of n parallel links |
| Positions.LinePosShape | src/NLGraph.js:1783-1821 | n distinct slots within ±n/2, closed under negation |
| Positions.LinePosSymmetric | src/NLGraph.js:1783-1821 | the negation of each slot is a slot |
| Positions.LinePosHasZeroIffOdd | src/NLGraph.js:1783-1821 | slot 0 is used iff n is odd, and it comes first |
| Positions.ComputeTspanDy | src/NLGraph.js:1832-1846 | the loop builds the node label offsets |
| Positions.TspanDyLayout | src/NLGraph.js:1832-1846 | n offsets one line height apart; an odd count has its middle line at baseDy, an even count its two middle lines at -baseDy and lineHeight - baseDy |
| Positions.ComputeEdgeLabelDy | src/NLGraph.js:1856-1879 | the loop builds the edge label offsets |
| Positions.EdgeLabelDyLayout | src/NLGraph.js:1856-1879 | entry i is baseDy plus a distinct whole number of line heights, covering a contiguous range around baseDy |
| Positions.EdgeLabelDyAtOffset | src/NLGraph.js:1862-1873 | one entry of the table, as an offset in line heights |
| Positions.EdgeLabelDyOfLinks | src/NLGraph.js:1759 | edge labels sit at -0.2em plus whole label line heights |
| Geometry.CheckSelExtentHalfOpen | src/NLGraph.js:556-562 | no extent gives undefined; the box is half-open and splitting it puts each point in exactly one half |
| Geometry.ClampProperties | src/NLGraph.js:2246 | the clamped scale is in range, unchanged iff already in range, idempotent and monotone |
| Geometry.LocationScreenPointInverse | src/NLGraph.js:3223-3234 | getLocation and getPoint are inverse for a non-zero scale |
| Geometry.TranslatedTo | src/NLGraph.js:3244-3252 | translating keeps the scale and puts location l at point p |
| Geometry.TranslatedToFixedPoint | src/NLGraph.js:3244-3252 | translating a location to where it already is changes nothing |
| Geometry.ZoomState.TranslateTo | src/NLGraph.js:3244-3252 | after the call getPoint(l) is p, and nothing but the translation changes |
| Geometry.ZoomState.Zoom | src/NLGraph.js:2230-2255 | no scale does nothing; before rendering only initialScale is set; after, the clamped scale is set and the view centre keeps its location |
| Geometry.SingleEdgeLayout | src/NLGraph.js:1659-1679 | the ends are ordered by x and the control points sit a quarter of the length in from each end |
| Geometry.AscendingFlagsDiffer | src/NLGraph.js:1659-1672 | the single-edge and multi-edge ascending flags differ iff the two x are equal |
| Geometry.HorizontalControlsLayout | src/NLGraph.js:2071-2075 | the control points sit a quarter in from each end, lifted by dr * linkPos, distinct for distinct slots and mirrored for negated ones |
| Geometry.OrderControlPolygonLayout | src/NLGraph.js:2098-2107 | the polygon runs left to right, as given or reversed, with c0 and c1 its inner points |
| OldKeys.OldKey | src/NLGraph-old.js:633-653 | the `id-type` key holds no `_` iff neither name does |
| OldKeys.JoinSplit | src/NLGraph-old.js:692 | joining the pieces of a split gives the string back |
| OldKeys.SplitPairKey | src/NLGraph-old.js:692 | a pair key of underscore-free keys splits into those two keys |
| OldKeys.PairKeyUnsplit | src/NLGraph-old.js:659-688 | a pair key equal to one of two underscore-free keys is made of those keys |
| OldKeys.ReversedPairKey | src/NLGraph-old.js:691-692 | turning a clean pair key round gives the pair key the other way round |
| OldKeys.ReversedKeyWithUnderscore | src/NLGraph-old.js:692 | with `_` inside a name, turning `x_y_z` round gives `z_y_x`, not the reversed pair |
| OldTensions.ComputeLineTensions | src/NLGraph-old.js:1457-1486 | the loop builds the tension table |
| OldTensions.LineTensionsAt | src/NLGraph-old.js:1457-1486 | entry i is minus the current engine's slot i times 0.4 |
| OldTensions.LineTensionsShape | src/NLGraph-old.js:1457-1486 | n entries, each a multiple k * 0.4 with abs(k) at most n/2 |
| OldTensions.LineTensionsDistinct | src/NLGraph-old.js:1457-1486 | no two links get the same tension |
| OldTensions.LineTensionsSymmetric | src/NLGraph-old.js:1457-1486 | the negation of each tension is in the table |
| OldTensions.LineTensionsZeroIffOdd | src/NLGraph-old.js:1457-1486 | tension 0 is used iff the count is odd |
| OldTensions.LineTensionsExamples | src/NLGraph-old.js:1450-1452 | four links get 0.4, -0.4, 0.8, -0.8 and three get 0, 0.4, -0.4 |
| OldIndex.NodesObjFirst | src/NLGraph-old.js:630-633 | nodesObj maps each `id-type` key to the first node with it |
| OldIndex.LinksObjFirst | src/NLGraph-old.js:657 | linksObj maps each link name to the first link with it |
| OldIndex.ConnectedDictMeaning | src/NLGraph-old.js:659 | a key is in connectedDict iff some link has that ordered pair of ends |
| OldIndex.OutgoingMeaning | src/NLGraph-old.js:662-674 | a key is in outgoing iff a resolved link starts there, and its row is exactly those links' targets |
| OldIndex.IncomingMeaning | src/NLGraph-old.js:662-675 | a key is in incoming iff a resolved link ends there, and its row is exactly those links' sources |
| OldIndex.BuildNodesObj | src/NLGraph-old.js:630-646 | the loop builds the first-node-per-key table |
| OldIndex.ReadLink | src/NLGraph-old.js:649-681 | one step of the link loop advances the tables and linksObj |
| OldIndex.ReadLinks | src/NLGraph-old.js:649-681 | the loop computes the tables and linksObj of all links |
| OldIndex.CountPairName | src/NLGraph-old.js:690-703 | one reduce step bumps the forward key if present, else the split-reversed key |
| OldIndex.CountStep | src/NLGraph-old.js:690-703 | on clean keys, that step is the bucket count step of the current engine |
| OldIndex.CountPairNames | src/NLGraph-old.js:687-703 | the reduce computes the bucket counts of the links |
| OldIndex.RankLink | src/NLGraph-old.js:713-720 | one step decrements the bucket's copy and sets linkIndex and totalNoLinks |
| OldIndex.RankLinks | src/NLGraph-old.js:708-721 | the loops give every link its rank |
| OldIndex.ReadTables | src/NLGraph-old.js:603-737 | readData_ computes the index of the given nodes and links |
| OldIndex.OldIndexLinks | src/NLGraph-old.js:678-719 | each stored link is the input link re-pointed and ranked, with the same end keys |
| OldIndex.ResolvedLinks | src/NLGraph-old.js:678-679 | re-pointing the links keeps their end keys |
| OldIndex.OldBuckets | src/NLGraph-old.js:687-703 | the counts add up to the number of links, and two links share a bucket iff they join the same unordered pair |
| OldIndex.OldBucketRanks | src/NLGraph-old.js:713-720 | links of one pair share totalNoLinks, get distinct indices in range counting down, and carry no linkPos |
| OldIndex.OldBucketRanksOnto | src/NLGraph-old.js:718 | each index below the count belongs to some link of the pair |
| OldQueries.DictPair | src/NLGraph-old.js:659 | `a_b` is in connectedDict iff some link runs from a to b |
| OldQueries.ConnectedMeaning | src/NLGraph-old.js:1861-1907 | connected iff all four arguments are given and the keys are equal or some link joins them either way; symmetric |
| OldQueries.HasConnectionsMeaning | src/NLGraph-old.js:1955-1969 | some connectedDict entry splits to the key iff some link starts or ends at it |
| OldQueries.RemoveNodeKeyCollision | src/NLGraph-old.js:813-815 | the node ("a-b", "c") is found when removing ("a", "b-c"): the `-` join is not injective |
| OldQueries.EdgeNameMatches | src/NLGraph-old.js:904-907 | with clean names, a link's name equals the name built from the arguments iff its ends and type match |
| OldQueries.EdgeNameFinds | src/NLGraph-old.js:904-909 | indexOf finds the first link with matching ends and type, or -1 when none has them |
| OldQueries.AddedClean | src/NLGraph-old.js:763-793 | appending nodes and clean edges keeps the end keys clean |
| OldQueries.WithoutClean | src/NLGraph-old.js:911 | removing a link keeps the end keys clean |
| OldQueries.RemapCleanEnds | src/NLGraph-old.js:817-824 | removing a node keeps the end keys clean |
| GraphOld.OldGraph.ReadData | src/NLGraph-old.js:603-737 | the tables read are the index of the given nodes and links |
| GraphOld.OldGraph.IsConnected | src/NLGraph-old.js:1861-1907 | false when an argument is undefined; a TypeError exactly when all four are given and the tables are not yet read; after, connected iff the keys are equal or some link joins them either way |
| GraphOld.OldGraph.HasIncomingConnections | src/NLGraph-old.js:1919-1926 | true iff the key is in incoming; false before the tables are read; after, true iff a resolved link ends at the node |
| GraphOld.OldGraph.HasOutgoingConnections | src/NLGraph-old.js:1937-1944 | true iff the key is in outgoing; false before the tables are read; after, true iff a resolved link starts at the node |
| GraphOld.OldGraph.HasConnections | src/NLGraph-old.js:1955-1969 | true iff some connectedDict entry splits to the key; false before the tables are read; after, true iff some link starts or ends at the node |
| GraphOld.OldGraph.AddNode | src/NLGraph-old.js:752-801 | an existing `id-type` changes nothing; otherwise the node and its edges are appended and the tables re-read; either way the node is then present |
| GraphOld.OldGraph.AddEdge | src/NLGraph-old.js:852-889 | a new edge is appended and the tables re-read; an existing one changes nothing |
| GraphOld.OldGraph.RemoveNode | src/NLGraph-old.js:812-834 | no match changes nothing; otherwise the first node with that `id-type` is removed and its links spliced with the skip |
| GraphOld.OldGraph.RemoveEdge | src/NLGraph-old.js:903-919 | no match changes nothing; otherwise the first link with that name is removed and the tables re-read |

## Left out

- GraphEdits.AddNodeNeverDuplicate: a modelled node always has an own `style`. In the source a
  user node given without `style`, before the first render, may have exactly the own properties
  `id`, `type` and `attr`; `objectEquals` then matches it against the probe `{id, type, attr}`
  (src/NLGraph.js:891-900), and `addNode` returns without appending or re-reading. The model
  cannot hold such a node, so `GraphEdits.AddNodeAlwaysAppends` and `Graph.NLGraph.AddNode`
  always append in this case.
- Graph.NLGraph.AddNode: requires `Wellformed()`, whose `CleanKeys` excludes a link end outside
  `nodes` carrying a user `key` with `_` in it before the first render; `readData_` is only
  modelled on clean endpoint keys (see `Graph.NLGraph.ReadData`).
- Graph.NLGraph.AddEdge: requires `Wellformed()` for the same reason as `Graph.NLGraph.AddNode`.
- Drawing is not modelled: DOM, SVG, D3 selections, transitions, brushing, zoom lenses,
  clusters, layouts, collision handling, rendering (`render`, `updateGraph_`, `linkDrawing_`
  beyond the control points and label offsets) and the forms of paths.
- Trigonometry and square roots (`rotate`, `Math.atan2`, `Math.sqrt`) are not modelled. The
  control point layout is stated before rotation, and lengths are parameters.
- Node sizes, radii and `maxNodeSize` in `readData_` depend on D3 scales. They are not modelled.
- JavaScript coercion, `NaN`, `null` and object identity are not modelled. A link end is either a
  node-list index or a record of its own, so aliasing between a link end and a node is captured
  only through that index. Pushes and splices on shared arrays are modelled as new sequences.
- Calling `addNode` or `addEdge` with a missing style object is a `TypeError` in the source. The
  model requires the style to be present instead.
- `getLinkByKey`, `getNodeByKey`, the style and label setters, highlighting, hiding, snapshots,
  `bind` and `setTransMatirx` lie outside the graph core and are not modelled.
- The earlier engine's `computeTspanDy`, `computeEdgeLabelDy`, zoom and transforms are not
  modelled separately. Only the current engine's versions are.
- Graph.NLGraph.ReadData: requires link ends whose own keys hold no `_` (`CleanKeys`), so that pair
  keys split where the source means them to.
- Graph.NLGraph.ReadData: when a link meets a stale guard (`LinkIndex.GuardStale`: the key the guard
  tests is in `outgoing` or `incoming` but the key about to be written is not), the source throws a
  TypeError at src/NLGraph.js:805-806 and assigns no table. The model does not throw: it files a
  fresh entry and reads on. `LinkIndex.StaleGuardExample` shows the case, and
  `GraphIndex.FreshEndsNeverThrow` shows it needs a link end that keeps the key of a node no longer
  at its place. Such ends arise when `removeNode` re-points links at a spliced-out node.
- LinkIndex.ReadLink: on a stale guard it files the row where the source throws, as above.
- LinkIndex.ReadLinks: on a stale guard it reads on where the source throws, as above.
- Graph.NLGraph.ReadData: a node whose `style` is `null` or `undefined` makes `d.style.size` throw at
  src/NLGraph.js:759. The model reads such a node like any other.
- GraphOld.OldGraph.ReadData: a node whose `style` is `null` or `undefined` makes `d.style.size`
  throw at src/NLGraph-old.js:626. The model reads such a node like any other.
- Graph.NLGraph.IsConnected: covers `isConnected_` only as reached from `isConnected`, on the
  probe records it builds.
- Graph.NLGraph.HasOutgoingConnections: requires `Ready()`, which every constructed object meets;
  a state whose tables were assigned other than by `readData_` is not modelled.
- OldIndex.ReadTables: requires endpoint keys without `_`. With an underscore the split-reverse
  count goes to a third key, as `OldKeys.ReversedKeyWithUnderscore` shows.
- GraphOld.OldGraph.ReadData: requires the same clean endpoint keys as `OldIndex.ReadTables`.
- GraphOld.OldGraph.AddNode: requires the associated edges to have clean names, so that the
  re-read tables stay within what `OldIndex.ReadTables` handles.
- GraphOld.OldGraph.AddEdge: requires clean names for the same reason.
- Util.CoordFromLineWithRatioMeaning: coordinates are exact reals, not IEEE doubles, so the
  endpoints and the betweenness hold exactly, where the source may round.
- Geometry.LocationScreenPointInverse: the translation and scale are exact reals; with doubles the
  round trip holds only up to rounding.
- OldTensions.ComputeLineTensions: tensions are exact multiples of 0.4 as reals. In doubles a
  product such as `3 * .4` rounds (to 1.2000000000000002), so the exact values stated by
  `OldTensions.LineTensionsAt`, `OldTensions.LineTensionsShape` and
  `OldTensions.LineTensionsExamples` hold only up to rounding.
- Numbers in the geometry, the label offsets and the slot tables are reals throughout. Rounding,
  `NaN` and infinities are not modelled.
- OldIndex.OldBucketRanks: the earlier engine sets no `linkPos`; the model says so rather than
  relating ranks to tensions, which the source computes only while drawing.

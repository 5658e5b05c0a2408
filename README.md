# Flow networks and minimum cuts of undirected graphs

This project models the flow-network engine of `docs/mincut.js` in Dafny and proves properties of the model. There are three parts.

- **Edges and augmenting paths** (`edges.dfy`, module `Edges`). Edges are arcs with a linked reverse arc. `Path` is an ordered list of (edge, residual) entries. It has an exact-pair membership test, a bottleneck (the least residual) and a copy.
- **The flow network** (`network.dfy`, module `Network`). Class `FlowNetwork` keeps an ordered out-list and an ordered in-list per vertex, plus a flow entry per edge. Its operations are:
  - `add_vertex`, `add_edge`, `remove_edge` and `remove_vertex`;
  - `has_edge`;
  - the depth-first augmenting-path search `find_path`;
  - `reset_flows`;
  - Ford–Fulkerson `max_flow`;
  - `min_cut`, with its backward traversal `find_saturated_edges`.
- **The undirected graph** (`undirected.dfy`, module `Undirected`, and `labels.dfy`, module `Labels`). Class `UndirectedGraph` keeps a set of vertices and a record of its edges. It mirrors every change into two flow networks:
  - In the *edge network*, each undirected edge {u, v} is two unit arcs, u→v and v→u. It answers edge cuts.
  - In the *vertex-split network*, each vertex x is an arc `x_in → x_out` of capacity 1. Each edge {u, v} is two arcs of unbounded capacity, `u_out → v_in` and `v_out → u_in`. It answers vertex cuts.

**Representation.**
- An edge is an `Edge` value stored in an append-only arena (`seq<Edge>`), and its *handle* is its index in the arena. The adjacency lists hold handles, and the flow map is keyed by handle.
- The value `Net(arena, outEdges, inEdges, flow)` is the whole state of a network. `FlowNetwork.State()` returns it.
- `ValidNet` is the invariant every operation keeps:
  - every edge and its `redge` point at each other, run in opposite directions, and at least one of them has capacity 0;
  - every listed edge appears in its source's out-list and in its sink's in-list, and has a flow entry;
  - every flow entry belongs to a listed edge;
  - `flow(e) == -flow(redge(e))` and `flow(e) <= capacity(e)`;
  - no out-list and no in-list holds an edge twice.
- Network vertices are `V(id)`, `In(id)` and `Out(id)`. They stand for the labels `'v' + id`, `'v' + id + '_in'` and `'v' + id + '_out'`. Module `Labels` models `vertex_label`, `vertex_idx`, `parseInt` and the `_in` stripping on strings, and proves that a label gives back its id.

**Specifications.** Each state change has a specification function over `Net` values:
- `AddedPair` for `add_edge`;
- `PruneNet` with `DoomedLive` for `remove_edge`;
- `Detach` for `remove_vertex`;
- `PushAll` for an augmentation;
- `Zeroed` for `reset_flows`.

The methods are proved to compute those functions, and lemmas prove that the functions keep `ValidNet`.

## Model

| member | source | states |
|---|---|---|
| Edges.Path.constructor | docs/mincut.js:12-14 | A new path has no entries. |
| Edges.Path.AddEdge | docs/mincut.js:16-18 | The entry (edge, residual) is appended after the existing ones. |
| Edges.Path.InPath | docs/mincut.js:20-22 | True exactly when some entry equals the pair (edge, residual). |
| Edges.Path.Length | docs/mincut.js:28-30 | The number of entries; every index below it names an entry that InPath finds. |
| Edges.Path.GetEdge | docs/mincut.js:32-34 | The edge of entry index; InPath finds it with that entry's residual. |
| Edges.Path.GetResidual | docs/mincut.js:36-38 | The residual of entry index; InPath finds it with that entry's edge, and the bottleneck GetMinFlow is at most it. |
| Edges.CountOf | docs/mincut.js:21 | The count of matching entries is positive exactly when a matching entry exists. |
| Edges.Path.GetMinFlow | docs/mincut.js:24-27 | The bottleneck is at most every residual and equals one of them. On an empty path it is infinite, as `Math.min()` of no arguments is. |
| Edges.MinResidual | docs/mincut.js:24-27 | Same as GetMinFlow, for a sequence of entries. |
| Edges.Path.Copy | docs/mincut.js:41-47 | A fresh path with the same entries in the same order. |
| Edges.ResidualOf | docs/mincut.js:175 | find_path's test `capacity - flow > 0` passes exactly when the edge is unbounded or the flow is below the capacity. The residual is at least b exactly when the edge is unbounded or flow + b fits the capacity. |
| Network.FlowNetwork.constructor | docs/mincut.js:49-53 | An empty network with no vertices, lists or flow, which satisfies the invariant. |
| Network.FlowNetwork.AddVertex | docs/mincut.js:67-70 | The vertex gets empty out- and in-lists and nothing else changes. The invariant holds afterwards when the vertex was new. |
| Network.FlowNetwork.AddEdge | docs/mincut.js:96-109 | The new state is AddedPair: a forward edge of capacity w and a reverse edge of capacity 0, each the other's redge, appended to `out[u]`, `out[v]`, `in[u]` and `in[v]` with flow 0. Nothing changes when u == v. The invariant is kept. |
| Network.AddedPairValid | docs/mincut.js:96-109 | AddedPair keeps the invariant. |
| Network.AddedPairPaired | docs/mincut.js:99-102 | The two new edges are each other's redge, run in opposite directions, and the reverse edge has capacity 0. |
| Network.AddedPairLawful | docs/mincut.js:105-106 | Both new flows are 0, so the flow laws keep holding. |
| Network.AddedPairDistinct | docs/mincut.js:102-103 | The two new handles are above every listed one, so no out-list or in-list gets a repeated edge. |
| Network.AppendNew | docs/mincut.js:102-103 | Appending a handle not yet in a list keeps it free of repeats. |
| Network.FlowNetwork.RemoveEdge | docs/mincut.js:111-156 | The new state is PruneNet(old, DoomedLive): only the u→v edges of positive capacity and the v→u edges of capacity 0 leave the four lists and the flow map. Every other entry stays, in order. If no such edge exists, nothing changes. The invariant is kept. |
| Network.FlowNetwork.RemoveEdgeLoops | docs/mincut.js:116-155 | The lists and the flow map that the four loops build are those of PruneNet(old, DoomedLive): the doomed edges are gone and everything else stays in order. |
| Network.FilterEdges | docs/mincut.js:116-124 | One loop of remove_edge: it drops exactly the entries its test selects and keeps the others in their original order. |
| Network.RemoveLoopsOn | docs/mincut.js:111-156 | The four loops, run in order over the lists and the flow map, compute RemoveLoops. |
| Network.RemoveLoopsPruned | docs/mincut.js:111-156 | The four loops together delete exactly the doomed edges, both for u == v and for u != v. |
| Network.RemovedAsPruned | docs/mincut.js:111-156 | For u != v, the lists and flow map the four loops leave are those of PruneNet. |
| Network.LoopRemovesNothing | docs/mincut.js:111-156 | remove_edge(x, x) drops nothing, because no edge is a loop. |
| Network.PruneNetValid | docs/mincut.js:111-156 | Deleting a set of edges keeps the invariant, provided every surviving edge whose reverse goes is a capacity-0 edge with no flow. |
| Network.PrunedValid | docs/mincut.js:111-156 | The state remove_edge leaves satisfies the invariant and equals the old state when nothing is doomed. |
| Network.PruneMembers | docs/mincut.js:116-154 | A pruned list holds exactly the entries of the list that are not deleted. |
| Network.PruneNoRepeats | docs/mincut.js:116-136 | Deleting entries keeps a list free of repeats. |
| Network.PruneTwice | docs/mincut.js:111-156 | Pruning twice is pruning once by the union. |
| Network.PruneNetTwice | docs/mincut.js:111-156 | Two deletions in a row are one deletion of the union. |
| Network.AddThenRemove | docs/mincut.js:96-156 | When no u→v edge existed, add_edge(u, v, w) with w > 0 followed by remove_edge(u, v) restores the lists and the flow map. |
| Network.RemovedBothUnlinked | docs/mincut.js:111-156 | After remove_edge(u, v) and remove_edge(v, u), no listed edge runs from u to v or from v to u. |
| Network.DoomedBoth | docs/mincut.js:74-84 | The two calls of remove_vertex's loop body delete exactly the edges between the two vertices, in either direction. |
| Network.FlowNetwork.RemoveBetween | docs/mincut.js:75-77 | remove_edge(u, v) then remove_edge(v, u) leaves PruneNet(old, BetweenLive(u, v)) and keeps the invariant. |
| Network.FlowNetwork.OutRound | docs/mincut.js:74-78 | One round of the first loop: the out-list of the vertex gets shorter, and the state stays the start state minus edges incident to the vertex. |
| Network.FlowNetwork.InRound | docs/mincut.js:79-83 | One round of the second loop: the in-list gets shorter while the out-list stays empty, with the same state relation. |
| Network.FlowNetwork.ClearVertex | docs/mincut.js:72-83 | The two loops terminate with every edge incident to the vertex deleted and nothing else. |
| Network.AllIncidentGone | docs/mincut.js:72-83 | Once both lists of the vertex are empty, the deleted set is every incident edge. |
| Network.FlowNetwork.RemoveVertex | docs/mincut.js:72-86 | The new state is Detach: every incident edge deleted and the vertex's lists removed. The invariant is kept. |
| Network.DetachValid | docs/mincut.js:72-86 | Detach keeps the invariant and removes exactly the vertex from the vertex set. |
| Network.DetachIsolatesOut | docs/mincut.js:72-86 | No remaining out-list holds an edge with the removed vertex as an endpoint. |
| Network.DetachIsolatesIn | docs/mincut.js:72-86 | No remaining in-list holds an edge with the removed vertex as an endpoint. |
| Network.EmptyWhenAllGone | docs/mincut.js:74-83 | A list whose every entry is deleted becomes empty. |
| Network.FlowNetwork.HasEdge | docs/mincut.js:158-165 | True exactly when some out-edge of u has sink v. |
| Network.AnyToSink | docs/mincut.js:159-164 | The scan finds an entry with sink v exactly when one exists. |
| Network.FlowNetwork.FindPath | docs/mincut.js:167-185 | A returned path is the given path extended by a residual chain from source to sink. Each step is a listed out-edge of the vertex reached so far and records its current residual, which is > 0. The chain's edges are distinct, none was already visited, and all are visited now. When no path is found, every residual out-edge of the source was visited and no visited edge leads to the sink. |
| Network.FoundExtends | docs/mincut.js:174-181 | A path found from an edge's sink, extended by that edge, is a path found from its source. |
| Network.ClosedStep | docs/mincut.js:172-184 | The exhaustion facts of an unsuccessful recursive call combine into those of the caller. |
| Network.NoChainFromClosed | docs/mincut.js:167-185 | After an unsuccessful search, no residual chain joins source to sink. |
| Network.FlowNetwork.ResetFlows | docs/mincut.js:187-192 | Every flow entry becomes 0 on the same set of edges, and the invariant is kept. |
| Network.ZeroedLawful | docs/mincut.js:187-192 | The zero flow obeys the flow laws. |
| Network.ZeroedValid | docs/mincut.js:187-192 | reset_flows keeps the invariant. |
| Network.FlowSumZeroed | docs/mincut.js:187-192 | After reset_flows the flow summed over any list of edges is 0. |
| Network.ZeroedConserved | docs/mincut.js:187-192 | The zero flow is conserved with value 0: the flow summed over the out-edges of every vertex is 0. |
| Network.FlowNetwork.Augment | docs/mincut.js:199-202 | The inner loop of max_flow adds the bottleneck to each path edge's flow and subtracts it from that edge's redge's flow (PushAll). |
| Network.PushAllIsPushed | docs/mincut.js:199-202 | Along a path of distinct edges, the step-by-step augmentation equals the simultaneous one. |
| Network.PushedLawful | docs/mincut.js:199-202 | Pushing b > 0 along edges whose residual is at least b keeps `flow(e) == -flow(redge(e))` and `flow(e) <= capacity(e)` on the same edges. |
| Network.PushReady | docs/mincut.js:197-202 | Every edge of a residual chain, and its redge, has a flow entry, and its residual is at least the bottleneck. |
| Network.AugmentValid | docs/mincut.js:197-203 | A bottleneck that is one of the path's residuals and at most each of them can be pushed along a path of distinct edges, and pushing it keeps the invariant. |
| Network.FoundAugmenting | docs/mincut.js:196-198 | A path find_path found, with its bottleneck, is an augmenting chain: distinct listed edges from source to sink, each with a positive residual at least the bottleneck. |
| Network.RoundValid | docs/mincut.js:197-202 | One augmentation keeps the invariant. |
| Network.FlowSumSet | docs/mincut.js:205-209 | Changing the flow of one edge changes the flow summed over a list without repeats by the change, when the edge is listed, and not at all otherwise. |
| Network.ListedExactly | docs/mincut.js:99-103 | Under the invariant an edge with a flow entry is among the out-edges of x exactly when it leaves x. |
| Network.PushStepSum | docs/mincut.js:200-201 | One pass of the inner loop adds b to the sum at the edge's source and takes b from the sum at its sink, when the edge is listed exactly at its source and its redge exactly at its sink. |
| Network.PushStepOut | docs/mincut.js:200-201 | The same for the out-edges of any vertex of a network satisfying the invariant. |
| Network.ChainInit | docs/mincut.js:167-185 | A non-empty residual chain ends with an edge into its target, and the steps before it are a chain to that edge's source. |
| Network.PushAllOut | docs/mincut.js:199-202 | Pushing b along a residual chain from s to y adds b to the flow summed at s and takes b from the sum at y; the two cancel when y == s. |
| Network.AugmentConserved | docs/mincut.js:197-202 | For source != sink, an augmentation by b along a residual chain turns a conserved flow of value v into a conserved flow of value v + b. |
| Network.RoundKept | docs/mincut.js:197-202 | One augmentation keeps the invariant and the flow keys, and adds the bottleneck to the value of a conserved flow. |
| Network.ListedKeys | docs/mincut.js:105-106 | The flow keys are the listed edges, so augmentations, which leave the lists alone, keep the key set. |
| Network.FlowNetwork.Search | docs/mincut.js:196 | The search from the source with an empty path and an empty visited set, described as in FindPath. |
| Network.FlowNetwork.Restart | docs/mincut.js:195-196 | max_flow's start: every flow becomes 0, the invariant holds, the flow is conserved with value 0, and the first search is described as in FindPath. |
| Network.FlowNetwork.AugmentOnce | docs/mincut.js:197-203 | One round of the loop keeps the invariant, turns a conserved flow of value v into one of value v + bottleneck, and the next search's result is described as in FindPath. |
| Network.FlowNetwork.AugmentAll | docs/mincut.js:197-204 | The loop keeps the invariant and a conserved flow whose value is the sum of the bottlenecks pushed. When it ends without running out of fuel and without an infinite bottleneck, the last search found no path. |
| Network.FlowNetwork.FlowOut | docs/mincut.js:205-210 | The result is the flow summed over the source's out-edges, and no residual chain joins source to sink. |
| Network.FlowNetwork.MaxFlow | docs/mincut.js:194-211 | The invariant (flow antisymmetry, capacity bounds, lists and keys) holds afterwards, the lists do not change and the key set does not change. The zero start is Restart's contract. A returned value is the flow summed over the source's out-edges, the flow is conserved with that value (it leaves the source, enters the sink and sums to 0 at every other vertex), and no augmenting chain is left. |
| Network.SumFlows | docs/mincut.js:205-209 | The loop computes FlowSum over the list. |
| Network.FlowNetwork.FindSaturatedEdges | docs/mincut.js:231-247 | The vertex is visited. Every appended edge is a saturated in-edge of positive capacity of a visited vertex. Every newly visited vertex has each in-edge dealt with: its source was visited if the edge has residual left, and the edge is in the cut if it is saturated with positive capacity. Every visited vertex reaches the target along a residual chain. The cut only grows, by edges into newly visited vertices, and no edge appears in it twice. The network does not change. |
| Network.NoRepeatsAt | docs/mincut.js:235-236 | An entry of a list without repeats does not occur before its own index. |
| Network.NewAtSink | docs/mincut.js:233-244 | When the traversal reaches the i-th in-edge of an unvisited vertex, that edge is not yet in the cut: earlier cut edges enter vertices visited before, and the edges appended for this vertex are its earlier in-edges, which are distinct from it. |
| Network.FlowNetwork.SweepEdge | docs/mincut.js:236-244 | One in-edge is dealt with as above. The cut keeps no repeated edge, and what it appends for this vertex is the edge itself or edges into other vertices. |
| Network.ReachBack | docs/mincut.js:238-240 | A residual in-edge of a vertex that reaches the sink makes its source reach the sink. |
| Network.CutExact | docs/mincut.js:219-227 | The kept edges are exactly the saturated, positive-capacity in-edges of visited vertices whose source was not visited. No residual in-edge enters the visited set from outside. |
| Network.KeepUnreached | docs/mincut.js:222-227 | The filtering loop computes Unreached over the saturated edges. |
| Network.UnreachedNoRepeats | docs/mincut.js:222-227 | Filtering a cut without repeated edges gives one without repeated edges. |
| Network.NotReached | docs/mincut.js:214-229 | A vertex with no residual chain to the sink is not visited. |
| Network.VisitedIsReach | docs/mincut.js:231-247 | The set the backward traversal visits is exactly the set of vertices with a residual chain to the sink. |
| Network.ChainIntoClosed | docs/mincut.js:231-247 | A set holding the sink that no residual in-edge enters from outside holds every vertex with a residual chain to the sink. |
| Network.CutSeparates | docs/mincut.js:219-227 | Every walk of positive-capacity edges from outside such a set to the sink uses a saturated edge from outside into the set. |
| Network.CutMeetsWalks | docs/mincut.js:219-227 | When the cut is exactly those saturated edges and the source is outside the set, every walk from source to sink uses an edge of the cut. |
| Network.FlowNetwork.MinCut | docs/mincut.js:214-229 | The result is exactly the saturated, positive-capacity in-edges met by the backward traversal from the sink whose source was not visited. The visited set is exactly the set of vertices with a residual chain to the sink, and it is closed under residual in-edges. When max_flow returned a value, the flow left behind is conserved with that value (the flow max_flow built from zero), the source is not visited, and every walk of positive-capacity edges from source to sink uses an edge of the result. No edge appears in the result twice, so its length is the number of cut edges. |
| Network.ResidualNonNegative | docs/mincut.js:175 | Under the flow laws no residual is negative. |
| Labels.LabelRoundTrip | docs/mincut.js:267-282 | `vertex_idx(vertex_label(n)) == n` for every integer id n (see Left out for JavaScript numbers beyond the safe integers). |
| Labels.LabelInjective | docs/mincut.js:267-273 | Distinct integer ids get distinct labels. |
| Labels.VertexLabel | docs/mincut.js:267-273 | A string is kept as it is. A number n becomes `v` followed by a minus sign exactly when n < 0, then decimal digits ending in a digit. |
| Labels.VertexIdx | docs/mincut.js:276-282 | A number is its own index. A string gives an index exactly when what follows its first character starts like a number, and a non-negative one when that is a digit. |
| Labels.ParseInt | docs/mincut.js:280 | parseInt gives a number exactly when the string starts with a digit, or a sign followed by a digit; the number is not positive after a minus sign and not negative otherwise. NaN is None. |
| Labels.DecimalValue | docs/mincut.js:270 | The decimal rendering of n reads back as n. |
| Labels.DigitPrefix | docs/mincut.js:280 | parseInt reads the longest digit prefix and stops at the first non-digit. |
| Labels.ParseDecimalThen | docs/mincut.js:280 | The decimal digits of an id, followed by a non-digit, parse back to the id. |
| Labels.HalfLabelIdx | docs/mincut.js:276-282 | vertex_idx of a half label `v<n>_in` or `v<n>_out` is n. |
| Labels.StripIn | docs/mincut.js:362 | `replace(/_in$/, '')` removes a final `_in` and leaves any other string unchanged. |
| Labels.HalfLabelRoundTrip | docs/mincut.js:359-365 | Stripping `_in` and then vertex_idx gives the id back from either half label. |
| Labels.HalfLabelInjective | docs/mincut.js:288-289 | Half labels of distinct vertices, or of distinct halves, differ. |
| Undirected.LabelIdx | docs/mincut.js:276-282 | vertex_idx recovers the id from the label of every network vertex. |
| Undirected.Label | docs/mincut.js:284-290 | The key of a network vertex starts with `v`; it ends in `_in` exactly for an in-half and in `_out` exactly for an out-half. |
| Undirected.IdOf | docs/mincut.js:348 | vertex_idx of a network vertex's label is the vertex's id. |
| Undirected.CutId | docs/mincut.js:362-365 | Stripping `_in` from the label of a network vertex and then applying vertex_idx gives the vertex's id. |
| Undirected.LabelInjectiveAll | docs/mincut.js:284-290 | The labels of distinct network vertices differ, so keying the networks by Vertex loses nothing. |
| Undirected.StripLabelIdx | docs/mincut.js:359-365 | Stripping `_in` and then vertex_idx recovers the id of every network vertex. |
| Undirected.UndirectedGraph.constructor | docs/mincut.js:249-253 | An empty graph with two fresh, empty networks. |
| Undirected.UndirectedGraph.FromGraph | docs/mincut.js:249-265 | The graph built from vertex list vs and adjacency es has vertices vs and joins a and b exactly when both are vertices and one lists the other. |
| Undirected.UndirectedGraph.AddVertex | docs/mincut.js:284-291 | The vertex is added to the vertex set and to the edge network. The split network gets `x_out` and `x_in` and the arc `x_in → x_out` of capacity 1. The invariant holds when the vertex was new. |
| Undirected.AddHalves | docs/mincut.js:288-290 | The split network becomes AddedPair of the network with `x_out` and `x_in` added, joined by `x_in → x_out` of capacity 1; the invariant holds when both halves were new. |
| Undirected.UndirectedGraph.RemoveVertex | docs/mincut.js:293-299 | The vertex leaves the vertex set. It is detached from the edge network, and both its halves are detached from the split network. The invariant is kept. |
| Undirected.RemoveHalves | docs/mincut.js:297-298 | Both halves are detached from the split network, and the invariant is kept. |
| Undirected.UndirectedGraph.AddEdge | docs/mincut.js:301-324 | The outcome is InvalidEndpoint when an endpoint is missing, AlreadyExists when the edge is recorded in either direction, and Added otherwise. When Added, the edge is recorded once, u→v and v→u of capacity 1 join the edge network, and `u_out → v_in` and `v_out → u_in` of unbounded capacity join the split network. Otherwise nothing changes. |
| Undirected.UndirectedGraph.OpenRecord | docs/mincut.js:305-307 | The edge records and their owners become OpenedEdges and OpenedOwners: a record for u is opened when neither u nor v has one. |
| Undirected.UndirectedGraph.AddRecord | docs/mincut.js:309-313 | v joins u's record when u has one, u joins v's otherwise (Record). |
| Undirected.UndirectedGraph.AddArcs | docs/mincut.js:314-317 | Both networks keep the invariant. The edge network gets u→v and v→u of capacity 1, so u and v are linked both ways; the split network gets `u_out → v_in` and `v_out → u_in` of unbounded capacity. |
| Undirected.AddBothWays | docs/mincut.js:314-315 | add_edge(a, b, w) then add_edge(b, a, w): two AddedPair steps, the invariant kept, and a and b linked both ways when distinct. |
| Undirected.AddCrossing | docs/mincut.js:316-317 | `u_out → v_in` and `v_out → u_in` of unbounded capacity join the split network as two AddedPair steps, and the invariant is kept. |
| Undirected.AddOutcomeIff | docs/mincut.js:304-323 | Each outcome holds exactly under its condition, for all three outcomes. |
| Undirected.RecordsAfterAdd | docs/mincut.js:305-313 | An added edge is recorded in exactly one direction, and no other record changes. |
| Undirected.JoinedAfter | docs/mincut.js:301-324 | The joined pairs grow by exactly {u, v} when the edge is added, and stay the same otherwise. |
| Undirected.AddTwice | docs/mincut.js:301-324 | Adding the same edge again, in either direction, is refused as AlreadyExists. |
| Undirected.AsWrittenAddsWhenIntended | docs/mincut.js:304-323 | The guard as written adds whenever the intended guard does, and warns of a missing endpoint under the same condition. |
| Undirected.AsWrittenAddsDuplicate | docs/mincut.js:308 | The guard as written lets a recorded edge through (see Findings). |
| Undirected.OpenedEdges | docs/mincut.js:305-307 | Opening a record leaves a record for u or v and changes no recorded pair. |
| Undirected.UndirectedGraph.Adjacent | docs/mincut.js:337-341 | True exactly when some edge-network out-edge of `V(u)` has sink `V(v)`. |
| Undirected.UndirectedGraph.RemoveEdge | docs/mincut.js:326-335 | When adjacent, both networks lose the arcs between u and v in both directions. Otherwise nothing changes. Afterwards u and v are not adjacent, and the invariant is kept. |
| Undirected.UndirectedGraph.RemoveArcs | docs/mincut.js:330-333 | Both networks keep the invariant. The edge network loses the u→v and v→u arcs, so u and v are unlinked both ways; the split network loses `u_out → v_in` and `v_out → u_in`. |
| Undirected.RemoveBothWays | docs/mincut.js:330-331 | remove_edge(a, b) then remove_edge(b, a): the invariant is kept and a and b are unlinked both ways. |
| Undirected.RemoveCrossing | docs/mincut.js:332-333 | remove_edge(u_out, v_in) then remove_edge(v_out, u_in), and the invariant is kept. |
| Undirected.UndirectedGraph.Disconnect | docs/mincut.js:329-334 | The four remove_edge calls leave u and v unlinked in both directions. |
| Undirected.ShapedAddArcs | docs/mincut.js:314-317 | The four new arcs keep the graph invariant: the vertex sets of both networks match the vertices, and the split network keeps its shape. |
| Undirected.ShapedRemoveVertex | docs/mincut.js:293-299 | Removing a vertex from all three keeps the graph invariant. |
| Undirected.UndirectedGraph.MinCut | docs/mincut.js:343-351 | The result pairs are the endpoint ids of exactly the edges FlowNetwork min_cut returns on the edge network, whose traversal visited exactly the vertices with a residual chain to the sink. The lists and the flow keys of the edge network do not change. When max_flow returned a value, the edge network's flow is conserved with that value and every walk from source to sink in the edge network uses a cut edge. There is one pair per cut edge, and no edge appears in the cut twice. |
| Undirected.EndpointIds | docs/mincut.js:347-349 | Each cut edge is replaced by the pair of the ids of its endpoints. |
| Undirected.UndirectedGraph.MinVertexCut | docs/mincut.js:353-369 | The result is empty when source and sink are adjacent. Otherwise it holds one vertex id per cut edge of the split network. Each cut edge is an arc `x_in → x_out` of a graph vertex x whose `x_out` side was reached from the sink and whose `x_in` side was not. The traversal visited exactly the split vertices with a residual chain to `sink_in`. The sink is never in the result. When max_flow returned a value, the split network's flow is conserved with that value from `source_out` to `sink_in`, the source is not in the result, and every walk from `source_out` to `sink_in` uses a cut arc. No arc appears in the cut twice. |
| Undirected.CutHalves | docs/mincut.js:358-367 | Every edge in a split-network cut is a vertex arc `x_in → x_out` of a graph vertex. |
| Undirected.SaturatedSplit | docs/mincut.js:359-363 | Only vertex arcs `x_in → x_out` can be saturated in the split network: the edge arcs are unbounded. |
| Undirected.CutVertexIds | docs/mincut.js:359-366 | Each cut edge becomes the id of its source vertex. |
| Undirected.UndirectedGraph.AddNewVertex | docs/mincut.js:284-291 | add_vertex of a vertex not yet in the graph appends it to the vertex list, leaves the edge records alone and keeps the invariant. |
| Undirected.UndirectedGraph.AddVertices | docs/mincut.js:255-257 | The vertices are added in order and the invariant is kept. |
| Undirected.UndirectedGraph.AddEdgesFrom | docs/mincut.js:259-263 | The joined pairs grow by exactly the pairs from u to each listed vertex that exist as vertices. |
| Undirected.UndirectedGraph.AddEdgesOfAll | docs/mincut.js:258-264 | The joined pairs grow by exactly the pairs of vertices one of which lists the other. |
| Undirected.JoinedByMembers | docs/mincut.js:258-264 | The edges named by the adjacency of a list of owners are the pairs with an owner listing the other. |
| Undirected.UndirectedGraph.Clone | docs/mincut.js:371-386 | The clone has fresh networks and the same vertices. Its joined pairs are the original's joined pairs between its vertices: records naming a vertex that remove_vertex removed are dropped. It satisfies the invariant. |

## Left out

- Edge identity: the source keys the flow map and find_path's `visited` set by the string `u->v:w` (lines 8-10, 106, 175). Twin edges with the same endpoints and capacity therefore share entries there. The model keys both by edge handle, so twins are kept apart.
- JavaScript's `Infinity` capacity is modelled as `Unbounded`, with an explicit infinite residual. A bottleneck of `Infinity` cannot be pushed. MaxFlow reports it as the outcome `InfiniteBottleneck` instead of adding `Infinity` to the flows.
- Network.FlowNetwork.MaxFlow: the loop is bounded by a fuel parameter and reports `OutOfFuel` when the fuel runs out. Termination of Ford–Fulkerson is not proved. Optimality (max-flow equals min-cut capacity) is not proved either; what is proved is that the result is the value of a conserved flow and that no augmenting chain is left. The sequence of augmentations is not recorded.
- Calls the source lets crash are preconditions in the model. On an absent vertex, add_edge (`this.out_edges[u].push`, lines 102-103), remove_edge, remove_vertex, has_edge, find_path, max_flow and min_cut throw a TypeError in the source; the model requires the vertex to have lists.
- source == sink: find_path returns the empty path every time, whose bottleneck is `Infinity`, so max_flow loops forever. The model ends that loop with the outcome `InfiniteBottleneck`.
- Network.FlowNetwork.AddVertex: re-adding an existing vertex empties its lists, as in the source, but the invariant is then only promised for a new vertex.
- The FlowNetwork constructor's graph argument (lines 55-64) is not modelled. No code in the core passes one, and its add_edge calls pass no capacity. `get_edges` and `get_in_edges` (lines 88-94) are read as the fields themselves.
- The `console.warn` messages of add_edge (lines 319, 322) are the outcome value `AddOutcome`, with no output.
- Undirected.UndirectedGraph.AddEdge: the model makes the network changes before writing the edge record. The record and the networks are separate state, so the result is the same as the source's order.
- Undirected.UndirectedGraph.AddEdge: the corrected duplicate guard is modelled. The guard as written is `AddOutcomeAsWritten`; see Findings.
- Undirected.UndirectedGraph.RemoveVertex: the model updates the networks before the vertex set. The three are separate state, so the result is the same.
- remove_edge and remove_vertex of the graph leave the edge records in place, as in the source. Re-adding a removed edge therefore warns, and clone re-adds the recorded edges between surviving vertices.
- Vertices are passed to UndirectedGraph as integer ids, not as numbers or label strings. The label functions are modelled in `Labels` and proved to lose nothing. Non-integer numbers, truncated by `parseInt`, are not modelled.
- Labels.LabelRoundTrip, Labels.LabelInjective: ids are assumed to be safe integers (|n| <= 2^53 - 1), which JavaScript numbers hold exactly and render in plain decimal. The model's `int` leaves out JavaScript's exponent rendering: from 1e21 on, `'v' + parseInt(v)` (lines 269-270) reads the string `1e+21`, so parseInt gives 1 and vertex_label(1e21) is `v1`. It also leaves out the loss of precision above 2^53.
- Undirected.UndirectedGraph.MinCut returns edge handles plus the endpoint id pairs, in a new sequence. The source overwrites its array in place.
- Undirected.CutVertexIds: min_vertex_cut's two loops are fused into one loop. The first loop strips `_in` and the second parses; the result is the same.
- Undirected.UndirectedGraph.FromGraph requires every vertex to have an adjacency list, as the source's loop reads `graph.edges[v].length`. It also requires the vertex list to be free of duplicates: a repeated vertex re-runs add_vertex (lines 284-291), which empties the `x_out` and `x_in` lists of the split network while the old `x_in → x_out` arc keeps its flow entry, so that network no longer satisfies the invariant.
- Network.FlowNetwork.MinCut, Undirected.UndirectedGraph.MinCut, Undirected.UndirectedGraph.MinVertexCut: that the capacity of the cut equals the value of the flow, which would make the cut minimum, is not proved. The contracts tie the cut to the conserved flow max_flow leaves behind, to the set of vertices with a residual chain to the sink, and to every source-to-sink walk.
- Network.FlowNetwork.MinCut, Undirected.UndirectedGraph.MinCut, Undirected.UndirectedGraph.MinVertexCut: the order of the cut (the order in which the backward depth-first traversal meets the edges) is kept by the bodies but not stated. The contracts state the set of cut edges, that no edge repeats, and one result entry per cut edge.
- Undirected.UndirectedGraph.AddVertices: states the vertex list and the invariant, not the exact network states.
- Undirected.UndirectedGraph.AddEdgesFrom: states the edge records and the invariant, not the exact network states.
- Undirected.UndirectedGraph.AddEdgesOfAll: states the edge records and the invariant, not the exact network states.
- Undirected.UndirectedGraph.Clone: states the vertices, the joined pairs and the invariant, not the exact network states. Key order follows insertion order.
- PathSelector (lines 388-617) is the user-interface layer: DOM updates, event handlers and a network request. It is not part of this model.
- The depth of recursion in find_path and find_saturated_edges (the JavaScript call stack) is not modelled.

## Findings

| source | as written | input that shows it | evidently intended | confidence | as-written member | corrected member |
|---|---|---|---|---|---|---|
| docs/mincut.js:308 | The duplicate guard is `(u in edges && !(v in edges[u])) \|\| (v in edges && !(u in edges[v]))`. It passes when either record lacks the other vertex, even though the edge may already be recorded in the other direction. | Vertices 1..4. Run add_edge(1, 2), add_edge(3, 4), add_edge(3, 1); edge {1, 3} is now recorded as 3 → 1. Then add_edge(1, 3) adds a second pair of arcs between v1 and v3 in both networks instead of warning 'Edge already exists'. | Add only when the edge is recorded in neither direction. | not executed | Undirected.AsWrittenAddsDuplicate | Undirected.UndirectedGraph.AddEdge |

/** The flow network (docs/mincut.js, lines 49-247): per-vertex ordered lists of out-edges and
    in-edges, a flow per edge, depth-first augmenting paths (Ford-Fulkerson), and the minimum cut
    read off the residual graph by a backward traversal from the sink.

    Edge objects are modelled by an append-only arena: the handle of an edge is its index, every
    list holds handles, and the flow map is keyed by handle. */
module Network {
  import opened Labels
  import opened Edges

  /** How max_flow ends: with the value of a maximum flow; with a path all of whose edges are
      unbounded (the source would push Infinity); or, in this model, with its fuel used up. */
  datatype FlowOutcome = MaxFlowValue(value: int) | InfiniteBottleneck | OutOfFuel

  /** The state of a network, as a value: the edge arena, out_edges, in_edges and flow. */
  datatype Net = Net(arena: seq<Edge>, outEdges: map<Vertex, seq<nat>>,
                     inEdges: map<Vertex, seq<nat>>, flow: map<nat, int>)

  // ---------------------------------------------------------------------------------------
  // Rebuilding an edge list without some of its entries (the loops of remove_edge)

  /** The entries of list whose handles are not in gone, in their original order. */
  function Prune(list: seq<nat>, gone: set<nat>): (r: seq<nat>)
    ensures |r| <= |list|
  {
    if list == [] then []
    else
      var init := list[..|list| - 1];
      Prune(init, gone) + (if list[|list| - 1] in gone then [] else [list[|list| - 1]])
  }

  lemma {:induction false} PruneMembers(list: seq<nat>, gone: set<nat>)
    ensures forall h :: h in Prune(list, gone) <==> h in list && h !in gone
  {
    if list != [] {
      var init := list[..|list| - 1];
      assert list == init + [list[|list| - 1]];
      PruneMembers(init, gone);
    }
  }

  lemma {:induction false} PruneNothing(list: seq<nat>, gone: set<nat>)
    requires forall i :: 0 <= i < |list| ==> list[i] !in gone
    ensures Prune(list, gone) == list
  {
    if list != [] {
      PruneNothing(list[..|list| - 1], gone);
    }
  }

  lemma {:induction false} PruneTwice(list: seq<nat>, a: set<nat>, b: set<nat>)
    ensures Prune(Prune(list, a), b) == Prune(list, a + b)
  {
    if list != [] {
      var init, last := list[..|list| - 1], list[|list| - 1];
      PruneTwice(init, a, b);
      var p := Prune(init, a);
      assert list[..|list| - 1] == init;
      assert Prune(list, a + b) == Prune(init, a + b) + (if last in a + b then [] else [last]);
      assert Prune(list, a) == p + (if last in a then [] else [last]);
      if last in a {
        assert p + [] == p;
      } else {
        var q := p + [last];
        assert Prune(list, a) == q;
        assert q[..|q| - 1] == p && q[|q| - 1] == last;
        assert Prune(q, b) == Prune(p, b) + (if last in b then [] else [last]);
      }
    }
  }
  lemma {:induction false} PruneAgree(list: seq<nat>, a: set<nat>, b: set<nat>)
    requires forall h :: h in list ==> (h in a <==> h in b)
    ensures Prune(list, a) == Prune(list, b)
  {
    if list != [] {
      var init := list[..|list| - 1];
      assert list == init + [list[|list| - 1]];
      PruneAgree(init, a, b);
    }
  }

  /** Pruning a list whose first entry is gone makes it shorter. */
  lemma {:induction false} PruneHeadShrinks(list: seq<nat>, gone: set<nat>)
    requires list != [] && list[0] in gone
    ensures |Prune(list, gone)| < |list|
  {
    if |list| > 1 {
      var init := list[..|list| - 1];
      assert init[0] == list[0];
      PruneHeadShrinks(init, gone);
    }
  }

  // ---------------------------------------------------------------------------------------
  // The representation invariant

  /** Edge h and its redge point at each other, run in opposite directions between two distinct
      vertices, and at least one of the two has capacity 0 (the reverse edge). */
  ghost predicate PairedAt(a: seq<Edge>, h: nat)
    requires h < |a|
  {
    var e := a[h];
    e.redge < |a| && a[e.redge].redge == h
    && a[e.redge].source == e.sink && a[e.redge].sink == e.source && e.source != e.sink
    && (e.capacity == Finite(0) || a[e.redge].capacity == Finite(0))
  }

  ghost predicate Paired(a: seq<Edge>)
  {
    forall h :: 0 <= h < |a| ==> PairedAt(a, h)
  }

  /** An entry h of out_edges[x]: an edge leaving x, also listed among its sink's in-edges,
      with a flow entry. */
  ghost predicate OutEntry(n: Net, x: Vertex, h: nat)
  {
    h < |n.arena| && n.arena[h].source == x && n.arena[h].sink in n.inEdges
    && h in n.inEdges[n.arena[h].sink] && h in n.flow
  }

  /** An entry h of in_edges[x]: an edge entering x, also listed among its source's out-edges,
      with a flow entry. */
  ghost predicate InEntry(n: Net, x: Vertex, h: nat)
  {
    h < |n.arena| && n.arena[h].sink == x && n.arena[h].source in n.outEdges
    && h in n.outEdges[n.arena[h].source] && h in n.flow
  }

  ghost predicate OutListsOk(n: Net)
  {
    forall x, h :: x in n.outEdges && h in n.outEdges[x] ==> OutEntry(n, x, h)
  }

  ghost predicate InListsOk(n: Net)
  {
    forall x, h :: x in n.inEdges && h in n.inEdges[x] ==> InEntry(n, x, h)
  }

  /** Every edge with a flow entry is listed among its source's out-edges. */
  ghost predicate FlowListed(n: Net)
  {
    forall h :: h in n.flow ==> h < |n.arena| && n.arena[h].source in n.outEdges
                                && h in n.outEdges[n.arena[h].source]
  }

  /** Lists and flow keys agree: an edge has a flow entry exactly while it is listed. */
  ghost predicate Structured(n: Net)
  {
    n.outEdges.Keys == n.inEdges.Keys && Paired(n.arena) && OutListsOk(n) && InListsOk(n) && FlowListed(n)
  }

  /** The flow laws at edge h: flow(h) == -flow(redge(h)), flow(h) <= capacity(h); an edge whose
      reverse was removed has capacity 0 and no flow. */
  ghost predicate FlowLawAt(a: seq<Edge>, f: map<nat, int>, h: nat)
    requires h in f && h < |a|
  {
    var r := a[h].redge;
    (r in f ==> f[h] == -f[r])
    && (r !in f ==> a[h].capacity == Finite(0) && f[h] == 0)
    && (a[h].capacity.Finite? ==> f[h] <= a[h].capacity.units)
  }

  ghost predicate FlowLawful(a: seq<Edge>, f: map<nat, int>)
  {
    forall h :: h in f && h < |a| ==> FlowLawAt(a, f, h)
  }

  /** The handle at position i of a list. */
  ghost function At(list: seq<nat>, i: nat): nat
    requires i < |list|
  {
    list[i]
  }

  /** No handle occurs twice in the list. The positions are compared through At, so that the
      property is used only where a proof asks for it. */
  ghost predicate NoRepeats(list: seq<nat>)
  {
    forall i, j {:trigger At(list, i), At(list, j)} :: 0 <= i < j < |list| ==> At(list, i) != At(list, j)
  }

  /** A list without repeats: its last handle is not among the others, which have no repeats. */
  lemma NoRepeatsInit(list: seq<nat>)
    requires NoRepeats(list) && list != []
    ensures list[|list| - 1] !in list[..|list| - 1] && NoRepeats(list[..|list| - 1])
  {
    var k := |list| - 1;
    var init := list[..k];
    forall i | 0 <= i < k
      ensures init[i] != list[k]
    {
      assert At(list, i) != At(list, k);
    }
    forall i, j | 0 <= i < j < k
      ensures At(init, i) != At(init, j)
    {
      assert At(list, i) != At(list, j);
    }
  }

  /** Every edge is listed at most once in each list (each add_edge appends new edges), so that
      the flow summed over the out-edges counts each edge once and min_cut meets each edge once. */
  ghost predicate ListsDistinct(n: Net)
  {
    (forall x {:trigger NoRepeats(n.outEdges[x])} :: x in n.outEdges ==> NoRepeats(n.outEdges[x]))
    && (forall x {:trigger NoRepeats(n.inEdges[x])} :: x in n.inEdges ==> NoRepeats(n.inEdges[x]))
  }

  ghost predicate ValidNet(n: Net)
  {
    Structured(n) && FlowLawful(n.arena, n.flow) && ListsDistinct(n)
  }

  /** The residual capacity `capacity - flow[edge]`; an edge without a flow entry has none
      (in the source, `capacity - undefined` is NaN, which is not > 0). */
  function Residual(n: Net, h: nat): Amount
  {
    if h < |n.arena| && h in n.flow then ResidualOf(n.arena[h].capacity, n.flow[h]) else Fin(0)
  }

  /** Under the flow laws no residual is negative. */
  lemma ResidualNonNegative(n: Net, h: nat)
    requires ValidNet(n) && h in n.flow
    ensures AtMost(Fin(0), Residual(n, h))
  {
    var r := n.arena[h].redge;
    assert FlowLawAt(n.arena, n.flow, h);
    assert PairedAt(n.arena, h);
    if r in n.flow {
      assert FlowLawAt(n.arena, n.flow, r);
      assert PairedAt(n.arena, r);
    }
  }

  // ---------------------------------------------------------------------------------------
  // The state changes, as functions of the old state

  /** add_edge(u, v, w): a forward edge u->v of capacity w and a reverse edge v->u of capacity 0,
      each the other's redge, appended to out[u], out[v], in[u], in[v], both with flow 0.
      Nothing happens when u == v. */
  function AddedPair(n: Net, u: Vertex, v: Vertex, w: Cap): Net
    requires u != v ==> u in n.outEdges && v in n.outEdges && u in n.inEdges && v in n.inEdges
  {
    if u == v then n
    else
      var f, r := |n.arena|, |n.arena| + 1;
      Net(n.arena + [Edge(u, v, w, r), Edge(v, u, Finite(0), f)],
          n.outEdges[u := n.outEdges[u] + [f]][v := n.outEdges[v] + [r]],
          n.inEdges[u := n.inEdges[u] + [r]][v := n.inEdges[v] + [f]],
          n.flow[f := 0][r := 0])
  }

  /** Every list of lists without the handles in gone. */
  function PruneAll(lists: map<Vertex, seq<nat>>, gone: set<nat>): (r: map<Vertex, seq<nat>>)
    ensures r.Keys == lists.Keys
  {
    map x | x in lists :: Prune(lists[x], gone)
  }

  /** Every list without the handles in gone, and their flow entries deleted. */
  function PruneNet(n: Net, gone: set<nat>): Net
  {
    Net(n.arena, PruneAll(n.outEdges, gone), PruneAll(n.inEdges, gone), n.flow - gone)
  }

  /** The test of one of remove_edge's four loops: the edge's sink (bySink) or source is other,
      and its capacity is positive (positive) or 0. */
  predicate Drops(e: Edge, other: Vertex, bySink: bool, positive: bool)
  {
    (if bySink then e.sink == other else e.source == other)
    && (if positive then IsPositive(e.capacity) else e.capacity == Finite(0))
  }

  /** The edges remove_edge(u, v) deletes: u->v with positive capacity, and v->u with capacity 0. */
  predicate Doomed(e: Edge, u: Vertex, v: Vertex)
  {
    (e.source == u && e.sink == v && IsPositive(e.capacity))
    || (e.source == v && e.sink == u && e.capacity == Finite(0))
  }

  function DoomedLive(n: Net, u: Vertex, v: Vertex): set<nat>
  {
    set h | h in n.flow && h < |n.arena| && Doomed(n.arena[h], u, v)
  }

  predicate Incident(e: Edge, x: Vertex)
  {
    e.source == x || e.sink == x
  }

  function IncidentLive(n: Net, x: Vertex): set<nat>
  {
    set h | h in n.flow && h < |n.arena| && Incident(n.arena[h], x)
  }

  /** The edge runs between u and v, in one direction or the other. */
  predicate Between(e: Edge, u: Vertex, v: Vertex)
  {
    (e.source == u && e.sink == v) || (e.source == v && e.sink == u)
  }

  function BetweenLive(n: Net, u: Vertex, v: Vertex): set<nat>
  {
    set h | h in n.flow && h < |n.arena| && Between(n.arena[h], u, v)
  }

  /** remove_vertex(x): every edge at x gone, then x's own lists deleted. */
  function Detach(n: Net, x: Vertex): Net
  {
    var p := PruneNet(n, IncidentLive(n, x));
    Net(p.arena, p.outEdges - {x}, p.inEdges - {x}, p.flow)
  }

  // ---------------------------------------------------------------------------------------
  // The state changes keep the invariant

  /** add_vertex on a new vertex keeps the invariant. */
  lemma AddedVertexValid(n: Net, x: Vertex)
    requires ValidNet(n) && x !in n.outEdges
    ensures ValidNet(Net(n.arena, n.outEdges[x := []], n.inEdges[x := []], n.flow))
  {

  }

  lemma AddedPairPaired(n: Net, u: Vertex, v: Vertex, w: Cap)
    requires ValidNet(n) && u != v && u in n.outEdges && v in n.outEdges
    ensures Paired(AddedPair(n, u, v, w).arena)
  {
    var m := AddedPair(n, u, v, w);
    forall h | 0 <= h < |m.arena| ensures PairedAt(m.arena, h) {
      if h < |n.arena| {
        assert PairedAt(n.arena, h);
      }
    }
  }

  lemma AddedPairListed(n: Net, u: Vertex, v: Vertex, w: Cap)
    requires ValidNet(n) && u != v && u in n.outEdges && v in n.outEdges
    ensures OutListsOk(AddedPair(n, u, v, w)) && InListsOk(AddedPair(n, u, v, w))
    ensures FlowListed(AddedPair(n, u, v, w))
  {
    AddedOutListsOk(n, u, v, w);
    AddedInListsOk(n, u, v, w);
    AddedFlowListed(n, u, v, w);
  }

  lemma AddedOutListsOk(n: Net, u: Vertex, v: Vertex, w: Cap)
    requires OutListsOk(n) && u != v && u in n.outEdges && v in n.outEdges && u in n.inEdges && v in n.inEdges
    ensures OutListsOk(AddedPair(n, u, v, w))
  {
  }

  lemma AddedInListsOk(n: Net, u: Vertex, v: Vertex, w: Cap)
    requires InListsOk(n) && u != v && u in n.outEdges && v in n.outEdges && u in n.inEdges && v in n.inEdges
    ensures InListsOk(AddedPair(n, u, v, w))
  {
  }

  lemma AddedFlowListed(n: Net, u: Vertex, v: Vertex, w: Cap)
    requires FlowListed(n) && u != v && u in n.outEdges && v in n.outEdges && u in n.inEdges && v in n.inEdges
    ensures FlowListed(AddedPair(n, u, v, w))
  {
  }

  lemma AddedPairLawful(n: Net, u: Vertex, v: Vertex, w: Cap)
    requires ValidNet(n) && u != v && u in n.outEdges && v in n.outEdges
    ensures FlowLawful(AddedPair(n, u, v, w).arena, AddedPair(n, u, v, w).flow)
  {
    var m := AddedPair(n, u, v, w);
    assert forall h :: h in n.flow ==> h < |n.arena|;
    forall h | h in m.flow && h < |m.arena| ensures FlowLawAt(m.arena, m.flow, h) {
      if h < |n.arena| {
        assert FlowLawAt(n.arena, n.flow, h);
        assert PairedAt(n.arena, h);
      }
    }
  }

  /** add_edge keeps the invariant. */
  lemma AddedPairValid(n: Net, u: Vertex, v: Vertex, w: Cap)
    requires ValidNet(n)
    requires u != v ==> u in n.outEdges && v in n.outEdges
    ensures ValidNet(AddedPair(n, u, v, w))
  {
    if u != v {
      AddedPairPaired(n, u, v, w);
      AddedPairListed(n, u, v, w);
      AddedPairLawful(n, u, v, w);
      AddedPairDistinct(n, u, v, w);
    }
  }

  lemma AppendNew(list: seq<nat>, e: nat)
    requires NoRepeats(list) && e !in list
    ensures NoRepeats(list + [e])
  {
    var l := list + [e];
    forall i, j | 0 <= i < j < |l|
      ensures At(l, i) != At(l, j)
    {
      if j < |list| {
        assert At(list, i) != At(list, j);
      }
    }
  }

  /** The two new handles are above every listed one, so no list gets a repeat. */
  lemma AddedPairDistinct(n: Net, u: Vertex, v: Vertex, w: Cap)
    requires ValidNet(n) && u != v && u in n.outEdges && v in n.outEdges
    ensures ListsDistinct(AddedPair(n, u, v, w))
  {
    var f, r := |n.arena|, |n.arena| + 1;
    forall x, h | x in n.outEdges && h in n.outEdges[x] ensures h < f {
      assert OutEntry(n, x, h);
    }
    forall x, h | x in n.inEdges && h in n.inEdges[x] ensures h < f {
      assert InEntry(n, x, h);
    }
    AppendNew(n.outEdges[u], f);
    AppendNew(n.outEdges[v], r);
    AppendNew(n.inEdges[u], r);
    AppendNew(n.inEdges[v], f);
  }

  /** An entry stays in a list exactly when it is not removed. */
  lemma PruneNetMembers(n: Net, gone: set<nat>)
    ensures PrunedFrom(PruneNet(n, gone), n, gone)
  {
    forall x | x in n.outEdges {
      PruneMembers(n.outEdges[x], gone);
    }
    forall x | x in n.inEdges {
      PruneMembers(n.inEdges[x], gone);
    }
  }

  lemma PruneNetListed(n: Net, gone: set<nat>)
    requires ValidNet(n)
    ensures OutListsOk(PruneNet(n, gone)) && InListsOk(PruneNet(n, gone)) && FlowListed(PruneNet(n, gone))
  {
    var m := PruneNet(n, gone);
    PruneNetMembers(n, gone);
    PruneOutListsOk(n, gone, m);
    PruneInListsOk(n, gone, m);
    PruneFlowListed(n, gone, m);
  }

  /** m lists what n lists except the handles in gone, over the same edges, with their flow
      entries deleted. */
  ghost predicate PrunedFrom(m: Net, n: Net, gone: set<nat>)
  {
    m.arena == n.arena && m.flow == n.flow - gone
    && m.outEdges.Keys == n.outEdges.Keys && m.inEdges.Keys == n.inEdges.Keys
    && (forall x, h :: x in n.outEdges ==> (h in m.outEdges[x] <==> h in n.outEdges[x] && h !in gone))
    && (forall x, h :: x in n.inEdges ==> (h in m.inEdges[x] <==> h in n.inEdges[x] && h !in gone))
  }

  lemma PruneOutListsOk(n: Net, gone: set<nat>, m: Net)
    requires OutListsOk(n) && n.outEdges.Keys == n.inEdges.Keys && PrunedFrom(m, n, gone)
    ensures OutListsOk(m)
  {
    forall x, h | x in m.outEdges && h in m.outEdges[x] ensures OutEntry(m, x, h) {
      assert h in n.outEdges[x] && h !in gone;
      assert OutEntry(n, x, h);
      assert h in m.inEdges[n.arena[h].sink];
    }
  }

  lemma PruneInListsOk(n: Net, gone: set<nat>, m: Net)
    requires InListsOk(n) && n.outEdges.Keys == n.inEdges.Keys && PrunedFrom(m, n, gone)
    ensures InListsOk(m)
  {
    forall x, h | x in m.inEdges && h in m.inEdges[x] ensures InEntry(m, x, h) {
      assert h in n.inEdges[x] && h !in gone;
      assert InEntry(n, x, h);
      assert h in m.outEdges[n.arena[h].source];
    }
  }

  lemma PruneFlowListed(n: Net, gone: set<nat>, m: Net)
    requires FlowListed(n) && PrunedFrom(m, n, gone)
    ensures FlowListed(m)
  {
  }

  lemma PruneNetLawful(n: Net, gone: set<nat>)
    requires Paired(n.arena) && FlowLawful(n.arena, n.flow)
    requires forall h :: h in n.flow && h !in gone && h < |n.arena| && n.arena[h].redge in gone
               ==> n.arena[h].capacity == Finite(0) && n.flow[h] == 0
    ensures FlowLawful(n.arena, n.flow - gone)
  {
    var f := n.flow - gone;
    forall h | h in f && h < |n.arena| ensures FlowLawAt(n.arena, f, h) {
      assert FlowLawAt(n.arena, n.flow, h);
      var r := n.arena[h].redge;
      if r in n.flow && r !in f {
        assert PairedAt(n.arena, h);
        assert FlowLawAt(n.arena, n.flow, r);
      }
    }
  }

  /** Removing a set of edges from every list keeps the invariant, provided each edge whose
      reverse is removed (and which stays) has capacity 0. */
  lemma PruneNetValid(n: Net, gone: set<nat>)
    requires ValidNet(n)
    requires forall h :: h in n.flow && h !in gone && h < |n.arena| && n.arena[h].redge in gone
               ==> n.arena[h].capacity == Finite(0) && n.flow[h] == 0
    ensures ValidNet(PruneNet(n, gone))
  {
    PruneNetListed(n, gone);
    PruneNetLawful(n, gone);
    forall x | x in n.outEdges {
      PruneNoRepeats(n.outEdges[x], gone);
    }
    forall x | x in n.inEdges {
      PruneNoRepeats(n.inEdges[x], gone);
    }
  }

  /** Pruning keeps a list free of repeats. */
  lemma {:induction false} PruneNoRepeats(list: seq<nat>, gone: set<nat>)
    requires NoRepeats(list)
    ensures NoRepeats(Prune(list, gone))
  {
    if list != [] {
      var init, last := list[..|list| - 1], list[|list| - 1];
      NoRepeatsInit(list);
      PruneNoRepeats(init, gone);
      PruneMembers(init, gone);
      if last !in gone {
        AppendNew(Prune(init, gone), last);
      } else {
        assert Prune(list, gone) == Prune(init, gone);
      }
    }
  }

  /** The edges remove_edge deletes come with their reverses, except a reverse of capacity 0 whose
      forward edge also has capacity 0. */
  lemma DoomedPairs(n: Net, u: Vertex, v: Vertex)
    requires ValidNet(n)
    ensures var gone := DoomedLive(n, u, v);
      forall h :: h in n.flow && h !in gone && h < |n.arena| && n.arena[h].redge in gone
        ==> n.arena[h].capacity == Finite(0) && n.flow[h] == 0
  {
    var gone := DoomedLive(n, u, v);
    forall h | h in n.flow && h !in gone && h < |n.arena| && n.arena[h].redge in gone
      ensures n.arena[h].capacity == Finite(0) && n.flow[h] == 0
    {
      assert PairedAt(n.arena, h);
      assert FlowLawAt(n.arena, n.flow, h);
      assert FlowLawAt(n.arena, n.flow, n.arena[h].redge);
    }
  }

  /** Removing edges one batch after another is removing their union. */
  lemma PruneNetTwice(n: Net, a: set<nat>, b: set<nat>)
    ensures PruneNet(PruneNet(n, a), b) == PruneNet(n, a + b)
  {
    PruneMapTwice(n.outEdges, a, b);
    PruneMapTwice(n.inEdges, a, b);
    assert n.flow - a - b == n.flow - (a + b);
  }

  lemma PruneMapTwice(m: map<Vertex, seq<nat>>, a: set<nat>, b: set<nat>)
    ensures PruneAll(PruneAll(m, a), b) == PruneAll(m, a + b)
  {
    forall x | x in m {
      PruneTwice(m[x], a, b);
    }
  }

  /** Removing nothing that is listed changes nothing. */
  lemma PruneNetNothing(n: Net, gone: set<nat>)
    requires OutListsOk(n) && InListsOk(n)
    requires forall h :: h in gone ==> h !in n.flow
    ensures PruneNet(n, gone) == n
  {
    var p := PruneNet(n, gone);
    forall x | x in n.outEdges ensures p.outEdges[x] == n.outEdges[x] {
      var list := n.outEdges[x];
      forall i | 0 <= i < |list| ensures list[i] !in gone {
        assert OutEntry(n, x, list[i]);
      }
      PruneNothing(list, gone);
    }
    forall x | x in n.inEdges ensures p.inEdges[x] == n.inEdges[x] {
      var list := n.inEdges[x];
      forall i | 0 <= i < |list| ensures list[i] !in gone {
        assert InEntry(n, x, list[i]);
      }
      PruneNothing(list, gone);
    }
    assert p.flow == n.flow;
  }

  /** Deleting the lists of a vertex with no edges left keeps the invariant. */
  lemma DropEmptyVertexValid(n: Net, x: Vertex)
    requires ValidNet(n) && x in n.outEdges && n.outEdges[x] == [] && n.inEdges[x] == []
    ensures ValidNet(Net(n.arena, n.outEdges - {x}, n.inEdges - {x}, n.flow))
  {

  }

  lemma PruneAppended(list: seq<nat>, e: nat, gone: set<nat>)
    requires forall i :: 0 <= i < |list| ==> list[i] !in gone
    requires e in gone
    ensures Prune(list + [e], gone) == list
  {
    var l := list + [e];
    assert l[..|l| - 1] == list;
    PruneNothing(list, gone);
  }

  /** After add_edge(u, v, w) with w > 0, the edges remove_edge(u, v) deletes are the new pair,
      provided no u-v edge was there before. */
  lemma DoomedAfterAdd(n: Net, u: Vertex, v: Vertex, w: Cap)
    requires ValidNet(n) && u != v && u in n.outEdges && v in n.outEdges && IsPositive(w)
    requires DoomedLive(n, u, v) == {}
    ensures DoomedLive(AddedPair(n, u, v, w), u, v) == {|n.arena|, |n.arena| + 1}
  {
    var m := AddedPair(n, u, v, w);
    var f, r := |n.arena|, |n.arena| + 1;
    assert f in DoomedLive(m, u, v) && r in DoomedLive(m, u, v);
  }

  lemma AddThenRemoveOut(n: Net, u: Vertex, v: Vertex, w: Cap, x: Vertex)
    requires OutListsOk(n) && u != v && u in n.outEdges && v in n.outEdges && u in n.inEdges && v in n.inEdges
    requires x in n.outEdges
    ensures Prune(AddedPair(n, u, v, w).outEdges[x], {|n.arena|, |n.arena| + 1}) == n.outEdges[x]
  {
    var f, r := |n.arena|, |n.arena| + 1;
    var list := n.outEdges[x];
    forall i | 0 <= i < |list| ensures list[i] !in {f, r} {
      assert OutEntry(n, x, list[i]);
    }
    if x == u {
      PruneAppended(list, f, {f, r});
    } else if x == v {
      PruneAppended(list, r, {f, r});
    } else {
      PruneNothing(list, {f, r});
    }
  }

  lemma AddThenRemoveIn(n: Net, u: Vertex, v: Vertex, w: Cap, x: Vertex)
    requires InListsOk(n) && u != v && u in n.outEdges && v in n.outEdges && u in n.inEdges && v in n.inEdges
    requires x in n.inEdges
    ensures Prune(AddedPair(n, u, v, w).inEdges[x], {|n.arena|, |n.arena| + 1}) == n.inEdges[x]
  {
    var f, r := |n.arena|, |n.arena| + 1;
    var list := n.inEdges[x];
    forall i | 0 <= i < |list| ensures list[i] !in {f, r} {
      assert InEntry(n, x, list[i]);
    }
    if x == u {
      PruneAppended(list, r, {f, r});
    } else if x == v {
      PruneAppended(list, f, {f, r});
    } else {
      PruneNothing(list, {f, r});
    }
  }

  lemma AddThenRemoveOuts(n: Net, u: Vertex, v: Vertex, w: Cap)
    requires ValidNet(n) && u != v && u in n.outEdges && v in n.outEdges
    ensures PruneNet(AddedPair(n, u, v, w), {|n.arena|, |n.arena| + 1}).outEdges == n.outEdges
  {
    var p := PruneNet(AddedPair(n, u, v, w), {|n.arena|, |n.arena| + 1});
    forall x | x in n.outEdges ensures p.outEdges[x] == n.outEdges[x] {
      AddThenRemoveOut(n, u, v, w, x);
    }
  }

  lemma AddThenRemoveIns(n: Net, u: Vertex, v: Vertex, w: Cap)
    requires ValidNet(n) && u != v && u in n.outEdges && v in n.outEdges
    ensures PruneNet(AddedPair(n, u, v, w), {|n.arena|, |n.arena| + 1}).inEdges == n.inEdges
  {
    var p := PruneNet(AddedPair(n, u, v, w), {|n.arena|, |n.arena| + 1});
    forall x | x in n.inEdges ensures p.inEdges[x] == n.inEdges[x] {
      AddThenRemoveIn(n, u, v, w, x);
    }
  }

  /** add_edge(u, v, w) for w > 0 followed by remove_edge(u, v), where no u-v edge was there
      before, restores every list and the flow map. */
  lemma AddThenRemove(n: Net, u: Vertex, v: Vertex, w: Cap)
    requires ValidNet(n) && u != v && u in n.outEdges && v in n.outEdges && IsPositive(w)
    requires DoomedLive(n, u, v) == {}
    ensures var m := AddedPair(n, u, v, w);
      var p := PruneNet(m, DoomedLive(m, u, v));
      p.outEdges == n.outEdges && p.inEdges == n.inEdges && p.flow == n.flow
  {
    var m := AddedPair(n, u, v, w);
    var gone := {|n.arena|, |n.arena| + 1};
    DoomedAfterAdd(n, u, v, w);
    AddThenRemoveOuts(n, u, v, w);
    AddThenRemoveIns(n, u, v, w);
    AddThenRemoveFlow(n, u, v, w);
    assert PruneNet(m, DoomedLive(m, u, v)) == PruneNet(m, gone);
  }

  lemma AddThenRemoveFlow(n: Net, u: Vertex, v: Vertex, w: Cap)
    requires FlowListed(n) && u != v && u in n.outEdges && v in n.outEdges && u in n.inEdges && v in n.inEdges
    ensures PruneNet(AddedPair(n, u, v, w), {|n.arena|, |n.arena| + 1}).flow == n.flow
  {
    assert forall h :: h in n.flow ==> h < |n.arena|;
  }

  /** The entries of list that one loop of remove_edge drops. */
  function DropSet(a: seq<Edge>, list: seq<nat>, other: Vertex, bySink: bool, positive: bool): set<nat>
  {
    set h | h in list && h < |a| && Drops(a[h], other, bySink, positive)
  }

  /** remove_edge(x, x) drops nothing: no edge is a loop. */
  lemma NoLoopDrops(n: Net, x: Vertex, positive: bool)
    requires Structured(n) && x in n.outEdges
    ensures DropSet(n.arena, n.outEdges[x], x, true, positive) == {}
    ensures DropSet(n.arena, n.inEdges[x], x, false, positive) == {}
    ensures DoomedLive(n, x, x) == {}
  {
    forall h | h in n.outEdges[x] ensures h < |n.arena| && n.arena[h].sink != x {
      assert OutEntry(n, x, h);
      assert PairedAt(n.arena, h);
    }
    forall h | h in n.inEdges[x] ensures h < |n.arena| && n.arena[h].source != x {
      assert InEntry(n, x, h);
      assert PairedAt(n.arena, h);
    }
    forall h | h in n.flow && h < |n.arena| ensures !Doomed(n.arena[h], x, x) {
      assert PairedAt(n.arena, h);
    }
  }

  /** For u != v, the first and fourth loops of remove_edge leave out[u] and out[v] without the
      doomed edges, and no other out-list holds one. */
  lemma RemovedOutList(n: Net, u: Vertex, v: Vertex, x: Vertex)
    requires OutListsOk(n) && u != v && x in n.outEdges
    ensures Prune(n.outEdges[x], DoomedLive(n, u, v))
      == if x == u then Prune(n.outEdges[u], DropSet(n.arena, n.outEdges[u], v, true, true))
         else if x == v then Prune(n.outEdges[v], DropSet(n.arena, n.outEdges[v], u, true, false))
         else n.outEdges[x]
  {
    var list := n.outEdges[x];
    var d := if x == u then DropSet(n.arena, list, v, true, true)
             else if x == v then DropSet(n.arena, list, u, true, false) else {};
    forall h | h in list ensures h in d <==> h in DoomedLive(n, u, v) {
      assert OutEntry(n, x, h);
    }
    PruneAgree(list, d, DoomedLive(n, u, v));
    PruneNothing(list, {});
  }

  lemma RemovedOuts(n: Net, u: Vertex, v: Vertex)
    requires OutListsOk(n) && u != v && u in n.outEdges && v in n.outEdges
    ensures PruneNet(n, DoomedLive(n, u, v)).outEdges
      == n.outEdges[u := Prune(n.outEdges[u], DropSet(n.arena, n.outEdges[u], v, true, true))]
                   [v := Prune(n.outEdges[v], DropSet(n.arena, n.outEdges[v], u, true, false))]
  {
    forall x | x in n.outEdges {
      RemovedOutList(n, u, v, x);
    }
  }

  /** For u != v, the second and third loops of remove_edge leave in[v] and in[u] without the
      doomed edges, and no other in-list holds one. */
  lemma RemovedInList(n: Net, u: Vertex, v: Vertex, x: Vertex)
    requires InListsOk(n) && u != v && x in n.inEdges
    ensures Prune(n.inEdges[x], DoomedLive(n, u, v))
      == if x == v then Prune(n.inEdges[v], DropSet(n.arena, n.inEdges[v], u, false, true))
         else if x == u then Prune(n.inEdges[u], DropSet(n.arena, n.inEdges[u], v, false, false))
         else n.inEdges[x]
  {
    var list := n.inEdges[x];
    var d := if x == v then DropSet(n.arena, list, u, false, true)
             else if x == u then DropSet(n.arena, list, v, false, false) else {};
    forall h | h in list ensures h in d <==> h in DoomedLive(n, u, v) {
      assert InEntry(n, x, h);
    }
    PruneAgree(list, d, DoomedLive(n, u, v));
    PruneNothing(list, {});
  }

  lemma RemovedIns(n: Net, u: Vertex, v: Vertex)
    requires InListsOk(n) && u != v && u in n.inEdges && v in n.inEdges
    ensures PruneNet(n, DoomedLive(n, u, v)).inEdges
      == n.inEdges[v := Prune(n.inEdges[v], DropSet(n.arena, n.inEdges[v], u, false, true))]
                  [u := Prune(n.inEdges[u], DropSet(n.arena, n.inEdges[u], v, false, false))]
  {
    forall x | x in n.inEdges {
      RemovedInList(n, u, v, x);
    }
  }

  /** For u != v, the flow entries the four loops delete are exactly the doomed edges. */
  lemma RemovedFlow(n: Net, u: Vertex, v: Vertex)
    requires Structured(n) && u != v && u in n.outEdges && v in n.outEdges
    ensures n.flow - DoomedLive(n, u, v)
      == n.flow - DropSet(n.arena, n.outEdges[u], v, true, true) - DropSet(n.arena, n.inEdges[v], u, false, true)
                - DropSet(n.arena, n.inEdges[u], v, false, false) - DropSet(n.arena, n.outEdges[v], u, true, false)
  {
    var gone := DoomedLive(n, u, v);
    var d1, d2 := DropSet(n.arena, n.outEdges[u], v, true, true), DropSet(n.arena, n.inEdges[v], u, false, true);
    var d3, d4 := DropSet(n.arena, n.inEdges[u], v, false, false), DropSet(n.arena, n.outEdges[v], u, true, false);
    forall h | h in d1 ensures h in gone {
      assert OutEntry(n, u, h);
    }
    forall h | h in d2 ensures h in gone {
      assert InEntry(n, v, h);
    }
    forall h | h in d3 ensures h in gone {
      assert InEntry(n, u, h);
    }
    forall h | h in d4 ensures h in gone {
      assert OutEntry(n, v, h);
    }
    forall h | h in gone ensures h in d1 + d4 {
      assert h in n.outEdges[n.arena[h].source];
    }
    assert n.flow - gone == n.flow - d1 - d2 - d3 - d4;
  }

  /** For u != v, the four loops of remove_edge, one after another, remove exactly the doomed edges. */
  lemma RemovedAsPruned(n: Net, u: Vertex, v: Vertex)
    requires Structured(n) && u != v && u in n.outEdges && v in n.outEdges
    ensures PruneNet(n, DoomedLive(n, u, v))
      == Net(n.arena,
             n.outEdges[u := Prune(n.outEdges[u], DropSet(n.arena, n.outEdges[u], v, true, true))]
                       [v := Prune(n.outEdges[v], DropSet(n.arena, n.outEdges[v], u, true, false))],
             n.inEdges[v := Prune(n.inEdges[v], DropSet(n.arena, n.inEdges[v], u, false, true))]
                      [u := Prune(n.inEdges[u], DropSet(n.arena, n.inEdges[u], v, false, false))],
             n.flow - DropSet(n.arena, n.outEdges[u], v, true, true) - DropSet(n.arena, n.inEdges[v], u, false, true)
                    - DropSet(n.arena, n.inEdges[u], v, false, false) - DropSet(n.arena, n.outEdges[v], u, true, false))
  {
    RemovedOuts(n, u, v);
    RemovedIns(n, u, v);
    RemovedFlow(n, u, v);
  }

  /** remove_edge(x, x): each loop drops nothing, and nothing is doomed. */
  lemma LoopRemovesNothing(n: Net, x: Vertex)
    requires Structured(n) && x in n.outEdges
    ensures DoomedLive(n, x, x) == {} && PruneNet(n, {}) == n
    ensures DropSet(n.arena, n.outEdges[x], x, true, true) == {}
    ensures DropSet(n.arena, n.inEdges[x], x, false, true) == {}
    ensures DropSet(n.arena, n.inEdges[x], x, false, false) == {}
    ensures DropSet(n.arena, n.outEdges[x], x, true, false) == {}
    ensures Prune(n.outEdges[x], {}) == n.outEdges[x] && Prune(n.inEdges[x], {}) == n.inEdges[x]
  {
    NoLoopDrops(n, x, true);
    NoLoopDrops(n, x, false);
    PruneNothing(n.outEdges[x], {});
    PruneNothing(n.inEdges[x], {});
    PruneNetNothing(n, {});
  }

  /** remove_edge(u, v) followed by remove_edge(v, u). */
  function RemovedBoth(n: Net, u: Vertex, v: Vertex): Net
  {
    var n1 := PruneNet(n, DoomedLive(n, u, v));
    PruneNet(n1, DoomedLive(n1, v, u))
  }

  /** Some listed out-edge of x ends at y (has_edge(x, y)). */
  ghost predicate Linked(n: Net, x: Vertex, y: Vertex)
  {
    x in n.outEdges && exists h :: h in n.outEdges[x] && h < |n.arena| && n.arena[h].sink == y
  }

  /** Between them, the two calls delete every listed edge from u to v: a positive one is u->v
      of the first call, one of capacity 0 is the reverse of a v->u edge, deleted by the second. */
  lemma RemovedBothCovers(n: Net, u: Vertex, v: Vertex, x: Vertex, y: Vertex)
    requires OutListsOk(n) && x in n.outEdges && ((x == u && y == v) || (x == v && y == u))
    ensures var d1 := DoomedLive(n, u, v);
            var d2 := DoomedLive(PruneNet(n, d1), v, u);
            forall h :: h in n.outEdges[x] && h < |n.arena| && n.arena[h].sink == y ==> h in d1 + d2
  {
    var d1 := DoomedLive(n, u, v);
    forall h | h in n.outEdges[x] && h < |n.arena| && n.arena[h].sink == y
      ensures h in d1 + DoomedLive(PruneNet(n, d1), v, u)
    {
      assert OutEntry(n, x, h);
    }
  }

  /** After remove_edge(u, v) and remove_edge(v, u), u and v are adjacent in neither direction. */
  lemma RemovedBothUnlinked(n: Net, u: Vertex, v: Vertex)
    requires OutListsOk(n)
    ensures !Linked(RemovedBoth(n, u, v), u, v) && !Linked(RemovedBoth(n, u, v), v, u)
  {
    var d1 := DoomedLive(n, u, v);
    var d2 := DoomedLive(PruneNet(n, d1), v, u);
    PruneNetTwice(n, d1, d2);
    if u in n.outEdges {
      RemovedBothCovers(n, u, v, u, v);
      PruneMembers(n.outEdges[u], d1 + d2);
    }
    if v in n.outEdges {
      RemovedBothCovers(n, u, v, v, u);
      PruneMembers(n.outEdges[v], d1 + d2);
    }
  }

  /** remove_edge keeps the invariant. */
  lemma RemovedValid(n: Net, u: Vertex, v: Vertex)
    requires ValidNet(n)
    ensures ValidNet(PruneNet(n, DoomedLive(n, u, v)))
    ensures DoomedLive(n, u, v) == {} ==> PruneNet(n, DoomedLive(n, u, v)) == n
  {
    DoomedPairs(n, u, v);
    PruneNetValid(n, DoomedLive(n, u, v));
    PruneNetNothing(n, {});
  }

  /** The same, for a network m already known to be the result. */
  lemma PrunedValid(n: Net, u: Vertex, v: Vertex, m: Net)
    requires ValidNet(n) && m == PruneNet(n, DoomedLive(n, u, v))
    ensures ValidNet(m)
    ensures DoomedLive(n, u, v) == {} ==> m == n
  {
    RemovedValid(n, u, v);
  }

  /** Every listed handle names an edge of the arena. */
  lemma ListsBelow(n: Net)
    requires OutListsOk(n) && InListsOk(n)
    ensures forall x, h :: x in n.outEdges && h in n.outEdges[x] ==> h < |n.arena|
    ensures forall x, h :: x in n.inEdges && h in n.inEdges[x] ==> h < |n.arena|
  {
    assert forall x, h :: x in n.outEdges && h in n.outEdges[x] ==> OutEntry(n, x, h);
    assert forall x, h :: x in n.inEdges && h in n.inEdges[x] ==> InEntry(n, x, h);
  }

  /** The first entries of x's lists are live edges leaving, and entering, x. */
  lemma HeadListed(n: Net, x: Vertex)
    requires OutListsOk(n) && InListsOk(n) && x in n.outEdges && x in n.inEdges
    ensures n.outEdges[x] != [] ==>
      n.outEdges[x][0] < |n.arena| && n.outEdges[x][0] in n.flow && n.arena[n.outEdges[x][0]].source == x
    ensures n.inEdges[x] != [] ==>
      n.inEdges[x][0] < |n.arena| && n.inEdges[x][0] in n.flow && n.arena[n.inEdges[x][0]].sink == x
  {
    if n.outEdges[x] != [] {
      assert OutEntry(n, x, n.outEdges[x][0]);
    }
    if n.inEdges[x] != [] {
      assert InEntry(n, x, n.inEdges[x][0]);
    }
  }

  /** Every entry of out_edges[x] is an edge of the arena. */
  lemma OutListedBelow(n: Net, x: Vertex)
    requires OutListsOk(n) && x in n.outEdges
    ensures forall i :: 0 <= i < |n.outEdges[x]| ==> n.outEdges[x][i] < |n.arena|
  {
    forall i | 0 <= i < |n.outEdges[x]| ensures n.outEdges[x][i] < |n.arena| {
      assert OutEntry(n, x, n.outEdges[x][i]);
    }
  }

  /** remove_edge(u, v) followed by remove_edge(v, u) deletes every edge between u and v, in
      either direction and of any capacity. */
  lemma DoomedBoth(n: Net, u: Vertex, v: Vertex)
    ensures var d1 := DoomedLive(n, u, v);
      d1 + DoomedLive(PruneNet(n, d1), v, u) == BetweenLive(n, u, v)
  {
  }

  /** The edges between u and v are at u and at v; a live edge between them is one of them. */
  lemma BetweenAt(n: Net, u: Vertex, v: Vertex, h: nat)
    ensures BetweenLive(n, u, v) <= IncidentLive(n, u) && BetweenLive(n, u, v) <= IncidentLive(n, v)
    ensures h in n.flow && h < |n.arena| && Between(n.arena[h], u, v) ==> h in BetweenLive(n, u, v)
  {
  }

  /** A round of remove_vertex deletes, after the edges already gone, edges at x only. */
  lemma NextRound(start: Net, gone: set<nat>, d: set<nat>, x: Vertex)
    requires gone <= IncidentLive(start, x)
    requires d <= IncidentLive(PruneNet(start, gone), x)
    ensures gone + d <= IncidentLive(start, x)
    ensures PruneNet(PruneNet(start, gone), d) == PruneNet(start, gone + d)
  {
    PruneNetTwice(start, gone, d);
  }

  /** Once x's lists are empty, every edge at x is gone. */
  lemma AllIncidentGone(start: Net, gone: set<nat>, x: Vertex)
    requires ValidNet(PruneNet(start, gone)) && x in start.outEdges
    requires PruneNet(start, gone).outEdges[x] == [] && PruneNet(start, gone).inEdges[x] == []
    requires gone <= IncidentLive(start, x)
    ensures PruneNet(start, gone) == PruneNet(start, IncidentLive(start, x))
  {
    var p := PruneNet(start, gone);
    forall h | h in p.flow ensures h < |start.arena| && !Incident(start.arena[h], x) {
      assert OutEntry(p, start.arena[h].source, h);
    }
    assert gone == IncidentLive(start, x);
  }

  /** The edges at x come with their reverses: an edge whose reverse is at x is itself at x. */
  lemma IncidentPairs(n: Net, x: Vertex)
    requires Paired(n.arena)
    ensures var gone := IncidentLive(n, x);
      forall h :: h in n.flow && h !in gone && h < |n.arena| && n.arena[h].redge in gone
        ==> n.arena[h].capacity == Finite(0) && n.flow[h] == 0
  {
    forall h | h in n.flow && h < |n.arena| && n.arena[h].redge in IncidentLive(n, x)
      ensures h in IncidentLive(n, x)
    {
      assert PairedAt(n.arena, h);
    }
  }

  /** Removing every edge at x empties both of x's lists. */
  lemma IncidentListsEmpty(n: Net, x: Vertex)
    requires OutListsOk(n) && InListsOk(n) && x in n.outEdges && x in n.inEdges
    ensures PruneNet(n, IncidentLive(n, x)).outEdges[x] == []
    ensures PruneNet(n, IncidentLive(n, x)).inEdges[x] == []
  {
    var gone := IncidentLive(n, x);
    forall h | h in n.outEdges[x] ensures h in gone {
      assert OutEntry(n, x, h);
    }
    forall h | h in n.inEdges[x] ensures h in gone {
      assert InEntry(n, x, h);
    }
    EmptyWhenAllGone(n.outEdges[x], gone);
    EmptyWhenAllGone(n.inEdges[x], gone);
  }

  /** remove_vertex keeps the invariant and drops exactly x from the vertices. */
  lemma DetachValid(n: Net, x: Vertex)
    requires ValidNet(n) && x in n.outEdges
    ensures ValidNet(Detach(n, x))
    ensures Detach(n, x).outEdges.Keys == n.outEdges.Keys - {x}
  {
    IncidentPairs(n, x);
    PruneNetValid(n, IncidentLive(n, x));
    IncidentListsEmpty(n, x);
    DropEmptyVertexValid(PruneNet(n, IncidentLive(n, x)), x);
  }

  /** After remove_vertex no out-list holds an edge at x. */
  lemma DetachIsolatesOut(n: Net, x: Vertex)
    requires OutListsOk(n)
    ensures forall y, h: nat :: y in Detach(n, x).outEdges && h in Detach(n, x).outEdges[y]
              ==> h < |n.arena| && !Incident(n.arena[h], x)
  {
    var gone := IncidentLive(n, x);
    var d := Detach(n, x);
    forall y | y in d.outEdges ensures forall h :: h in d.outEdges[y] ==> h < |n.arena| && !Incident(n.arena[h], x) {
      assert y in n.outEdges;
      PruneMembers(n.outEdges[y], gone);
      forall h | h in d.outEdges[y] ensures h < |n.arena| && !Incident(n.arena[h], x) {
        assert OutEntry(n, y, h);
      }
    }
  }

  /** After remove_vertex no in-list holds an edge at x. */
  lemma DetachIsolatesIn(n: Net, x: Vertex)
    requires InListsOk(n)
    ensures forall y, h: nat :: y in Detach(n, x).inEdges && h in Detach(n, x).inEdges[y]
              ==> h < |n.arena| && !Incident(n.arena[h], x)
  {
    var gone := IncidentLive(n, x);
    var d := Detach(n, x);
    forall y | y in d.inEdges ensures forall h :: h in d.inEdges[y] ==> h < |n.arena| && !Incident(n.arena[h], x) {
      assert y in n.inEdges;
      PruneMembers(n.inEdges[y], gone);
      forall h | h in d.inEdges[y] ensures h < |n.arena| && !Incident(n.arena[h], x) {
        assert InEntry(n, y, h);
      }
    }
  }

  lemma {:induction false} EmptyWhenAllGone(list: seq<nat>, gone: set<nat>)
    requires forall h :: h in list ==> h in gone
    ensures Prune(list, gone) == []
  {
    if list != [] {
      var init := list[..|list| - 1];
      assert list == init + [list[|list| - 1]];
      EmptyWhenAllGone(init, gone);
    }
  }

  // ---------------------------------------------------------------------------------------
  // Augmenting paths (find_path)

  /** What find_path relies on: both maps have the same vertices, and every out-list entry is an
      edge of the arena leaving its vertex, whose sink has lists too. */
  ghost predicate Searchable(n: Net)
  {
    n.outEdges.Keys == n.inEdges.Keys && OutListsOk(n) && InListsOk(n)
  }

  /** A residual chain from `from` to `to`: each step is a listed out-edge of the vertex reached
      so far, recorded with its current residual, which is positive. */
  ghost predicate Chain(n: Net, from: Vertex, to: Vertex, c: seq<Step>)
    decreases |c|
  {
    if c == [] then from == to
    else
      var h := c[0].edge;
      from in n.outEdges && h in n.outEdges[from] && h < |n.arena| && n.arena[h].source == from
      && c[0].residual == Residual(n, h) && Exceeds0(c[0].residual)
      && Chain(n, n.arena[h].sink, to, c[1..])
  }

  ghost predicate EdgesOutside(c: seq<Step>, vis: set<nat>)
  {
    forall i :: 0 <= i < |c| ==> c[i].edge !in vis
  }

  ghost predicate EdgesWithin(c: seq<Step>, vis: set<nat>)
  {
    forall i :: 0 <= i < |c| ==> c[i].edge in vis
  }

  ghost predicate DistinctEdges(c: seq<Step>)
  {
    forall i, j :: 0 <= i < j < |c| ==> c[i].edge != c[j].edge
  }

  /** The result r of find_path(s, t, p, vis0) that finished with visited set vis: p extended by
      a residual chain from s to t of distinct edges, none in vis0, all in vis. */
  ghost predicate Found(n: Net, s: Vertex, t: Vertex, p: seq<Step>, r: seq<Step>, vis0: set<nat>, vis: set<nat>)
  {
    |p| <= |r| && r[..|p|] == p && Chain(n, s, t, r[|p|..])
    && EdgesOutside(r[|p|..], vis0) && EdgesWithin(r[|p|..], vis) && DistinctEdges(r[|p|..])
  }

  /** Every out-edge of x with positive residual is in vis. */
  ghost predicate Covered(n: Net, x: Vertex, vis: set<nat>)
  {
    x in n.outEdges && forall h :: h in n.outEdges[x] && Exceeds0(Residual(n, h)) ==> h in vis
  }

  /** Every edge that joined vis after vis0 leads to a vertex other than t, all of whose residual
      out-edges are in vis. */
  ghost predicate Closed(n: Net, vis0: set<nat>, vis: set<nat>, t: Vertex)
  {
    forall h :: h in vis && h !in vis0 ==> h < |n.arena| && n.arena[h].sink != t && Covered(n, n.arena[h].sink, vis)
  }

  /** The edge handles below k. */
  function Below(k: nat): (r: set<nat>)
    ensures forall h: nat :: h in r <==> h < k
  {
    if k == 0 then {} else Below(k - 1) + {k - 1}
  }

  /** The entries of an out-list are edges leaving its vertex toward a vertex with lists. */
  lemma OutEdgeAt(n: Net, x: Vertex, h: nat)
    requires Searchable(n) && x in n.outEdges && h in n.outEdges[x]
    ensures h < |n.arena| && n.arena[h].source == x && n.arena[h].sink in n.outEdges
  {
    assert OutEntry(n, x, h);
  }

  /** When the search from the sink of edge e, started on path p + [e], finds r, then r also
      extends p by a chain from the source of e. */
  lemma FoundExtends(n: Net, s: Vertex, t: Vertex, p: seq<Step>, st: Step, r: seq<Step>,
                     vis0: set<nat>, cur: set<nat>, vis: set<nat>)
    requires s in n.outEdges && st.edge in n.outEdges[s] && st.edge < |n.arena| && n.arena[st.edge].source == s
    requires st.residual == Residual(n, st.edge) && Exceeds0(st.residual)
    requires vis0 <= cur && st.edge !in cur && cur + {st.edge} <= vis
    requires Found(n, n.arena[st.edge].sink, t, p + [st], r, cur + {st.edge}, vis)
    ensures Found(n, s, t, p, r, vis0, vis)
  {
    var c := r[|p|..];
    assert r[..|p| + 1][..|p|] == r[..|p|];
    assert c[0] == st;
    assert c[1..] == r[|p| + 1..];
  }

  /** A new path [] + [st] lies within vis when its one edge does. */
  lemma PathWithin(p: seq<Step>, st: Step, vis: set<nat>)
    requires EdgesWithin(p, vis) && st.edge in vis
    ensures EdgesWithin(p + [st], vis)
  {
  }

  /** Adding the edge e, whose search from its sink came back empty, keeps the visited set closed. */
  lemma ClosedStep(n: Net, vis0: set<nat>, cur: set<nat>, e: nat, vis: set<nat>, t: Vertex)
    requires vis0 <= cur && cur + {e} <= vis
    requires Closed(n, vis0, cur, t)
    requires e < |n.arena| && n.arena[e].sink != t && Covered(n, n.arena[e].sink, vis)
    requires Closed(n, cur + {e}, vis, t)
    ensures Closed(n, vis0, vis, t)
  {
    forall h | h in vis && h !in vis0
      ensures h < |n.arena| && n.arena[h].sink != t && Covered(n, n.arena[h].sink, vis)
    {
      if h in cur {
        CoveredGrows(n, n.arena[h].sink, cur, vis);
      }
    }
  }

  lemma CoveredGrows(n: Net, x: Vertex, a: set<nat>, b: set<nat>)
    requires Covered(n, x, a) && a <= b
    ensures Covered(n, x, b)
  {
  }

  /** From a vertex all of whose residual out-edges lie in a closed set of edges, no residual chain
      reaches t: when find_path(s, t, [], {}) gives up, no augmenting path exists. */
  lemma {:induction false} NoChainFromClosed(n: Net, s: Vertex, t: Vertex, vis: set<nat>, c: seq<Step>)
    requires s != t && Covered(n, s, vis) && Closed(n, {}, vis, t)
    ensures !Chain(n, s, t, c)
    decreases |c|
  {
    if c != [] {
      var h := c[0].edge;
      if h in n.outEdges[s] && h < |n.arena| && Exceeds0(Residual(n, h)) {
        NoChainFromClosed(n, n.arena[h].sink, t, vis, c[1..]);
      }
    }
  }

  // ---------------------------------------------------------------------------------------
  // Flows (reset_flows, the augmentation of max_flow, and its result)

  /** Every flow entry set to 0. */
  function Zeroed(f: map<nat, int>): (r: map<nat, int>)
    ensures r.Keys == f.Keys
  {
    map h | h in f :: 0
  }

  /** The zero flow obeys the flow laws wherever the old flow did, on the same edges. */
  lemma ZeroedLawful(a: seq<Edge>, f: map<nat, int>)
    requires FlowLawful(a, f)
    ensures FlowLawful(a, Zeroed(f))
  {
    forall h | h in Zeroed(f) && h < |a| ensures FlowLawAt(a, Zeroed(f), h) {
      assert FlowLawAt(a, f, h);
    }
  }

  /** reset_flows keeps the invariant. */
  lemma ZeroedValid(n: Net)
    requires ValidNet(n)
    ensures ValidNet(Net(n.arena, n.outEdges, n.inEdges, Zeroed(n.flow)))
  {
    ZeroedLawful(n.arena, n.flow);
    FlowKeysStructured(n, Zeroed(n.flow));
  }

  /** The handles of the steps of a path. */
  function EdgeSet(s: seq<Step>): set<nat>
  {
    if s == [] then {} else EdgeSet(s[..|s| - 1]) + {s[|s| - 1].edge}
  }

  lemma {:induction false} EdgeSetMembers(s: seq<Step>)
    ensures forall h :: h in EdgeSet(s) <==> exists i :: 0 <= i < |s| && s[i].edge == h
  {
    if s != [] {
      var init := s[..|s| - 1];
      EdgeSetMembers(init);
      assert forall i :: 0 <= i < |init| ==> init[i] == s[i];
    }
  }

  /** The handles of the first i + 1 steps: those of the first i, and a new one. */
  lemma EdgeSetNext(s: seq<Step>, i: nat)
    requires DistinctEdges(s) && i < |s|
    ensures EdgeSet(s[..i + 1]) == EdgeSet(s[..i]) + {s[i].edge}
    ensures s[i].edge !in EdgeSet(s[..i])
  {
    assert s[..i + 1][..i] == s[..i];
    EdgeSetMembers(s[..i]);
  }

  /** The flow after pushing b along every edge of E and taking it back along their reverses. */
  function Pushed(f: map<nat, int>, a: seq<Edge>, e: set<nat>, b: int): map<nat, int>
  {
    map h | h in f :: f[h] + (if h in e then b else 0) - (if h < |a| && a[h].redge in e then b else 0)
  }

  /** One pass of the augmentation loop at edge e: b added to its flow, then subtracted from the
      flow of its reverse. */
  function PushStep(g: map<nat, int>, a: seq<Edge>, e: nat, b: int): (r: map<nat, int>)
    requires e < |a| && e in g && a[e].redge in g
    ensures r.Keys == g.Keys
  {
    var g' := g[e := g[e] + b];
    g'[a[e].redge := g'[a[e].redge] - b]
  }

  /** The entries of s are live edges with live reverses in f. */
  predicate StepsLive(f: map<nat, int>, a: seq<Edge>, s: seq<Step>)
  {
    forall i :: 0 <= i < |s| ==> (s[i].edge < |a| && s[i].edge in f && a[s[i].edge].redge in f)
  }

  /** The flow after the augmentation loop has passed over the steps s in order. */
  function PushAll(f: map<nat, int>, a: seq<Edge>, s: seq<Step>, b: int): (r: map<nat, int>)
    requires StepsLive(f, a, s)
    ensures r.Keys == f.Keys
  {
    if s == [] then f
    else
      assert StepsLive(f, a, s[..|s| - 1]);
      PushStep(PushAll(f, a, s[..|s| - 1], b), a, s[|s| - 1].edge, b)
  }

  /** Along distinct live edges with live reverses, the step-by-step augmentation is Pushed. */
  lemma {:induction false} PushAllIsPushed(f: map<nat, int>, a: seq<Edge>, s: seq<Step>, b: int)
    requires Paired(a) && DistinctEdges(s) && StepsLive(f, a, s)
    ensures PushAll(f, a, s, b) == Pushed(f, a, EdgeSet(s), b)
  {
    if s == [] {
      assert Pushed(f, a, {}, b) == f;
    } else {
      var i := |s| - 1;
      var init := s[..i];
      assert StepsLive(f, a, init);
      PushAllIsPushed(f, a, init, b);
      EdgeSetNext(s, i);
      assert s[..i + 1] == s;
      PushOne(f, a, EdgeSet(init), s[i].edge, b);
    }
  }

  /** Pushing along one more edge e, not pushed along before: its flow grows by b and the flow of
      its reverse shrinks by b. */
  lemma PushOne(f: map<nat, int>, a: seq<Edge>, done: set<nat>, e: nat, b: int)
    requires Paired(a) && e < |a| && e !in done && e in f && a[e].redge in f
    ensures PushStep(Pushed(f, a, done, b), a, e, b) == Pushed(f, a, done + {e}, b)
  {
    var r := a[e].redge;
    assert PairedAt(a, e);
    forall h: nat | h < |a| && a[h].redge == e ensures h == r {
      assert PairedAt(a, h);
    }
  }

  /** Pushing a positive b, at most the residual of each pushed edge, keeps the flow laws. */
  lemma PushedLawful(a: seq<Edge>, f: map<nat, int>, e: set<nat>, b: int)
    requires Paired(a) && FlowLawful(a, f) && b > 0
    requires forall h :: h in e ==> h in f && h < |a| && AtMost(Fin(b), ResidualOf(a[h].capacity, f[h]))
    ensures FlowLawful(a, Pushed(f, a, e, b))
    ensures Pushed(f, a, e, b).Keys == f.Keys
  {
    var g := Pushed(f, a, e, b);
    forall h | h in g && h < |a| ensures FlowLawAt(a, g, h) {
      assert FlowLawAt(a, f, h);
      assert PairedAt(a, h);
      var r := a[h].redge;
      if r in f {
        assert PairedAt(a, r);
      }
    }
  }

  /** The entries of a path found by find_path on a network obeying the flow laws can take the
      bottleneck b: each is a live edge whose reverse is live too, and b is at most its residual. */
  lemma {:induction false} PushReady(n: Net, s: Vertex, t: Vertex, r: seq<Step>, b: int)
    requires FlowLawful(n.arena, n.flow) && Chain(n, s, t, r)
    requires forall i :: 0 <= i < |r| ==> AtMost(Fin(b), r[i].residual)
    ensures forall i :: 0 <= i < |r| ==>
              (r[i].edge < |n.arena| && r[i].edge in n.flow && n.arena[r[i].edge].redge in n.flow
               && AtMost(Fin(b), ResidualOf(n.arena[r[i].edge].capacity, n.flow[r[i].edge]))
               && Exceeds0(r[i].residual))
    decreases |r|
  {
    if r != [] {
      var h := r[0].edge;
      StepReady(n, h, r[0].residual, b);
      assert forall i :: 1 <= i < |r| ==> r[i] == r[1..][i - 1];
      PushReady(n, n.arena[h].sink, t, r[1..], b);
    }
  }

  /** A path entry with positive residual b or more is a live edge with a live reverse. */
  lemma StepReady(n: Net, h: nat, res: Amount, b: int)
    requires FlowLawful(n.arena, n.flow) && h < |n.arena|
    requires res == Residual(n, h) && Exceeds0(res) && AtMost(Fin(b), res)
    ensures h in n.flow && n.arena[h].redge in n.flow
    ensures AtMost(Fin(b), ResidualOf(n.arena[h].capacity, n.flow[h]))
  {
    assert FlowLawAt(n.arena, n.flow, h);
  }

  /** An augmentation along a path find_path found, by a bottleneck that is one of its residuals
      and at most each of them, can be carried out and keeps the invariant. */
  lemma AugmentValid(n: Net, s: Vertex, t: Vertex, r: seq<Step>, b: int)
    requires ValidNet(n) && Chain(n, s, t, r) && DistinctEdges(r)
    requires forall i :: 0 <= i < |r| ==> AtMost(Fin(b), r[i].residual)
    requires exists i :: 0 <= i < |r| && r[i].residual == Fin(b)
    ensures StepsLive(n.flow, n.arena, r)
    ensures ValidNet(Net(n.arena, n.outEdges, n.inEdges, PushAll(n.flow, n.arena, r, b)))
  {
    PushReady(n, s, t, r, b);
    EdgeSetMembers(r);
    PushedLawful(n.arena, n.flow, EdgeSet(r), b);
    FlowKeysStructured(n, Pushed(n.flow, n.arena, EdgeSet(r), b));
    PushAllIsPushed(n.flow, n.arena, r, b);
  }

  /** The invariant's list conditions depend on the flow map's keys only. */
  lemma FlowKeysStructured(n: Net, f: map<nat, int>)
    requires Structured(n) && f.Keys == n.flow.Keys
    ensures Structured(Net(n.arena, n.outEdges, n.inEdges, f))
  {
  }

  /** The flow map's keys are the listed edges, so two networks with the same lists have the
      same flow keys. */
  lemma ListedKeys(n: Net, m: Net)
    requires Structured(n) && Structured(m) && m.arena == n.arena && m.outEdges == n.outEdges
    ensures m.flow.Keys == n.flow.Keys
  {
    forall h | h in n.flow ensures h in m.flow {
      assert OutEntry(m, n.arena[h].source, h);
    }
    forall h | h in m.flow ensures h in n.flow {
      assert OutEntry(n, m.arena[h].source, h);
    }
  }

  /** Every out-edge of x has a flow entry. */
  lemma OutListedFlow(n: Net, x: Vertex)
    requires OutListsOk(n) && x in n.outEdges
    ensures forall i :: 0 <= i < |n.outEdges[x]| ==> n.outEdges[x][i] in n.flow
  {
    forall i | 0 <= i < |n.outEdges[x]| ensures n.outEdges[x][i] in n.flow {
      assert OutEntry(n, x, n.outEdges[x][i]);
    }
  }

  /** The flow summed over the edges of a list (max_flow's result on the source's out-edges); an
      edge without a flow entry adds nothing. */
  function FlowSum(f: map<nat, int>, list: seq<nat>): int
  {
    if list == [] then 0
    else FlowSum(f, list[..|list| - 1]) + (if list[|list| - 1] in f then f[list[|list| - 1]] else 0)
  }

  /** The final loop of max_flow. */
  method SumFlows(f: map<nat, int>, list: seq<nat>) returns (total: int)
    requires forall i :: 0 <= i < |list| ==> list[i] in f
    ensures total == FlowSum(f, list)
  {
    total := 0;
    var i := 0;
    while i < |list|
      invariant 0 <= i <= |list|
      invariant total == FlowSum(f, list[..i])
    {
      assert list[..i + 1][..i] == list[..i];
      total := total + f[list[i]];
      i := i + 1;
    }
    assert list[..|list|] == list;
  }

  /** The loop of has_edge: whether some edge of the list has sink v. */
  method AnyToSink(a: seq<Edge>, edges: seq<nat>, v: Vertex) returns (b: bool)
    requires forall i :: 0 <= i < |edges| ==> edges[i] < |a|
    ensures b <==> exists h :: h in edges && h < |a| && a[h].sink == v
  {
    var i := 0;
    while i < |edges|
      invariant 0 <= i <= |edges|
      invariant forall j :: 0 <= j < i ==> a[edges[j]].sink != v
    {
      if v == a[edges[i]].sink {
        assert edges[i] in edges;
        return true;
      }
      i := i + 1;
    }
    return false;
  }

  // ---------------------------------------------------------------------------------------
  // Conservation: what the augmentations of max_flow do to the flow summed at each vertex

  /** Setting the flow of one edge to z changes the sum over a list without repeats by the
      change of that flow when the edge is listed, and not at all otherwise. */
  lemma {:induction false} FlowSumSet(f: map<nat, int>, list: seq<nat>, e: nat, z: int)
    requires e in f && NoRepeats(list)
    ensures FlowSum(f[e := z], list) == FlowSum(f, list) + (if e in list then z - f[e] else 0)
  {
    if list != [] {
      var init := list[..|list| - 1];
      assert list == init + [list[|list| - 1]];
      NoRepeatsInit(list);
      FlowSumSet(f, init, e, z);
    }
  }

  /** The flow summed over the out-edges of x: what leaves x minus, through the reverse edges,
      what enters it. */
  function OutFlow(n: Net, x: Vertex): int
    requires x in n.outEdges
  {
    FlowSum(n.flow, n.outEdges[x])
  }

  /** Conservation of a flow of value v from s to t: the flow summed over the out-edges is v at s,
      -v at t, and 0 at every other vertex. */
  ghost predicate Conserved(n: Net, s: Vertex, t: Vertex, v: int)
  {
    (forall x {:trigger OutFlow(n, x)} :: x in n.outEdges && x != s && x != t ==> OutFlow(n, x) == 0)
    && (s in n.outEdges ==> OutFlow(n, s) == v)
    && (t in n.outEdges && t != s ==> OutFlow(n, t) == -v)
  }

  /** Every flow summed over a list is 0 once every flow is 0. */
  lemma {:induction false} FlowSumZeroed(f: map<nat, int>, list: seq<nat>)
    ensures FlowSum(Zeroed(f), list) == 0
  {
    if list != [] {
      FlowSumZeroed(f, list[..|list| - 1]);
    }
  }

  /** The zero flow (reset_flows) is a conserved flow of value 0. */
  lemma ZeroedConserved(n: Net, s: Vertex, t: Vertex)
    ensures Conserved(Net(n.arena, n.outEdges, n.inEdges, Zeroed(n.flow)), s, t, 0)
  {
    forall x | x in n.outEdges {
      FlowSumZeroed(n.flow, n.outEdges[x]);
    }
  }

  /** The last step of a chain ends at its target, and the steps before it form a chain to the
      last step's source. */
  lemma {:induction false} ChainInit(n: Net, s: Vertex, t: Vertex, c: seq<Step>)
    requires Chain(n, s, t, c) && c != []
    ensures c[|c| - 1].edge < |n.arena| && n.arena[c[|c| - 1].edge].sink == t
    ensures Chain(n, s, n.arena[c[|c| - 1].edge].source, c[..|c| - 1])
    decreases |c|
  {
    var h := c[0].edge;
    if |c| > 1 {
      var k := |c| - 1;
      ChainInit(n, n.arena[h].sink, t, c[1..]);
      assert c[1..][|c[1..]| - 1] == c[k];
      assert c[..k][1..] == c[1..][..k - 1];
    }
  }

  /** One pass of the augmentation loop at a listed edge e: the sum over the out-edges of x grows
      by b when e leaves x and shrinks by b when e enters x. */
  lemma PushStepOut(n: Net, g: map<nat, int>, e: nat, b: int, x: Vertex)
    requires Structured(n) && g.Keys == n.flow.Keys && x in n.outEdges && NoRepeats(n.outEdges[x])
    requires e < |n.arena| && e in g && n.arena[e].redge in g
    ensures FlowSum(PushStep(g, n.arena, e, b), n.outEdges[x]) == FlowSum(g, n.outEdges[x])
              + (if n.arena[e].source == x then b else 0) - (if n.arena[e].sink == x then b else 0)
  {
    assert PairedAt(n.arena, e);
    ListedExactly(n, x, e);
    ListedExactly(n, x, n.arena[e].redge);
    PushStepSum(g, n.arena, n.outEdges[x], x, e, b);
  }

  lemma PushStepSum(g: map<nat, int>, a: seq<Edge>, list: seq<nat>, x: Vertex, e: nat, b: int)
    requires e < |a| && e in g && a[e].redge in g && PairedAt(a, e) && NoRepeats(list)
    requires e in list <==> a[e].source == x
    requires a[e].redge in list <==> a[e].sink == x
    ensures FlowSum(PushStep(g, a, e, b), list) == FlowSum(g, list)
              + (if a[e].source == x then b else 0) - (if a[e].sink == x then b else 0)
  {
    var r := a[e].redge;
    var g' := g[e := g[e] + b];
    FlowSumSet(g, list, e, g[e] + b);
    FlowSumSet(g', list, r, g'[r] - b);
  }

  /** An edge with a flow entry is listed among the out-edges of x exactly when it leaves x. */
  lemma ListedExactly(n: Net, x: Vertex, h: nat)
    requires Structured(n) && x in n.outEdges && h in n.flow
    ensures h in n.outEdges[x] <==> n.arena[h].source == x
  {
    if h in n.outEdges[x] {
      assert OutEntry(n, x, h);
    }
  }

  /** Pushing b along a chain from s to y adds b to the sum at s and takes b from the sum at y;
      for a chain that comes back to s, the two cancel. */
  lemma {:induction false} PushAllOut(n: Net, s: Vertex, y: Vertex, c: seq<Step>, b: int, x: Vertex)
    requires Structured(n) && x in n.outEdges && NoRepeats(n.outEdges[x])
    requires Chain(n, s, y, c) && StepsLive(n.flow, n.arena, c)
    ensures FlowSum(PushAll(n.flow, n.arena, c, b), n.outEdges[x]) == FlowSum(n.flow, n.outEdges[x])
              + (if s == x then b else 0) - (if y == x then b else 0)
    decreases |c|
  {
    if c != [] {
      var k := |c| - 1;
      var e := c[k].edge;
      ChainInit(n, s, y, c);
      assert StepsLive(n.flow, n.arena, c[..k]);
      PushAllOut(n, s, n.arena[e].source, c[..k], b, x);
      PushStepOut(n, PushAll(n.flow, n.arena, c[..k], b), e, b, x);
    }
  }

  /** An augmentation along a residual chain from s to t (s != t) by b turns a conserved flow of
      value v into a conserved flow of value v + b. */
  lemma AugmentConserved(n: Net, s: Vertex, t: Vertex, c: seq<Step>, b: int, v: int)
    requires ValidNet(n) && s != t && Chain(n, s, t, c) && StepsLive(n.flow, n.arena, c)
    requires Conserved(n, s, t, v)
    ensures Conserved(Net(n.arena, n.outEdges, n.inEdges, PushAll(n.flow, n.arena, c, b)), s, t, v + b)
  {
    var m := Net(n.arena, n.outEdges, n.inEdges, PushAll(n.flow, n.arena, c, b));
    forall x | x in n.outEdges
      ensures OutFlow(m, x) == OutFlow(n, x) + (if s == x then b else 0) - (if t == x then b else 0)
    {
      PushAllOut(n, s, t, c, b, x);
    }
  }

  /** c is a residual chain of distinct edges from s to t, and b its bottleneck: one
      augmentation of max_flow pushes b along c. */
  ghost predicate Augmenting(n: Net, s: Vertex, t: Vertex, c: seq<Step>, b: int)
  {
    Chain(n, s, t, c) && DistinctEdges(c) && StepsLive(n.flow, n.arena, c) && MinResidual(c) == Fin(b)
  }

  /** One round keeps the invariant and, for s != t, adds its bottleneck to the value of the
      flow: m is the network once b is pushed along the augmenting chain c. */
  lemma RoundKept(n: Net, m: Net, s: Vertex, t: Vertex, c: seq<Step>, b: int, v: int)
    requires ValidNet(n) && Augmenting(n, s, t, c, b) && (s != t ==> Conserved(n, s, t, v))
    requires m == Net(n.arena, n.outEdges, n.inEdges, PushAll(n.flow, n.arena, c, b))
    ensures ValidNet(m) && m.flow.Keys == n.flow.Keys
    ensures s != t ==> Conserved(m, s, t, v + b)
  {
    RoundValid(n, s, t, c, b);
    if s != t {
      AugmentConserved(n, s, t, c, b, v);
    }
  }

  /** One round keeps the invariant. */
  lemma RoundValid(n: Net, s: Vertex, t: Vertex, c: seq<Step>, b: int)
    requires ValidNet(n) && Augmenting(n, s, t, c, b)
    ensures ValidNet(Net(n.arena, n.outEdges, n.inEdges, PushAll(n.flow, n.arena, c, b)))
  {
    var i :| 0 <= i < |c| && MinResidual(c) == c[i].residual;
    AugmentValid(n, s, t, c, b);
  }

  /** A path find_path found, with its bottleneck, is a round of max_flow. */
  lemma FoundAugmenting(n: Net, s: Vertex, t: Vertex, r: seq<Step>, seen: set<nat>, b: int)
    requires FlowLawful(n.arena, n.flow) && Found(n, s, t, [], r, {}, seen) && MinResidual(r) == Fin(b)
    ensures Augmenting(n, s, t, r, b)
  {
    assert r[0..] == r;
    PushReady(n, s, t, r, b);
  }

  // ---------------------------------------------------------------------------------------
  // Cuts (min_cut and find_saturated_edges)

  /** x reaches t along a residual chain. */
  ghost predicate Reaches(n: Net, x: Vertex, t: Vertex)
  {
    exists c :: Chain(n, x, t, c)
  }

  ghost predicate ReachAll(n: Net, vis: set<Vertex>, t: Vertex)
  {
    forall x :: x in vis ==> Reaches(n, x, t)
  }

  /** An edge h listed among the in-edges of a vertex in vis (its sink) that has no residual
      capacity left and positive capacity: a saturated edge find_saturated_edges collects. */
  ghost predicate SaturatedIn(n: Net, h: nat, vis: set<Vertex>)
  {
    h < |n.arena| && n.arena[h].sink in vis && n.arena[h].sink in n.inEdges
    && h in n.inEdges[n.arena[h].sink]
    && !Exceeds0(Residual(n, h)) && IsPositive(n.arena[h].capacity)
  }

  /** The traversal has dealt with the in-edge h: with residual capacity left, its source was
      visited; saturated with positive capacity, it is in cut. */
  ghost predicate SweptEdge(n: Net, h: nat, vis: set<Vertex>, cut: seq<nat>)
  {
    h < |n.arena|
    && (Exceeds0(Residual(n, h)) ==> n.arena[h].source in vis)
    && (!Exceeds0(Residual(n, h)) && IsPositive(n.arena[h].capacity) ==> h in cut)
  }

  /** The entries of hs from position lo on are edges whose sinks are in vs. */
  ghost predicate SinksIn(a: seq<Edge>, hs: seq<nat>, lo: nat, vs: set<Vertex>)
  {
    forall k :: lo <= k < |hs| ==> hs[k] < |a| && a[hs[k]].sink in vs
  }

  /** Position i of a list without repeats holds a handle not among those before it. */
  lemma NoRepeatsAt(list: seq<nat>, i: nat)
    requires NoRepeats(list) && i < |list|
    ensures list[i] !in list[..i]
  {
    forall j | 0 <= j < i ensures list[j] != list[i] {
      assert At(list, j) != At(list, i);
    }
  }

  /** The i-th in-edge of v is not yet in the cut, when the cut's old entries come from vertices
      visited before v and its new entries at v are among the first i in-edges of v. */
  lemma NewAtSink(n: Net, v: Vertex, i: nat, vis0: set<Vertex>, cut: seq<nat>, cut': seq<nat>)
    requires InListsOk(n) && v in n.inEdges && NoRepeats(n.inEdges[v]) && i < |n.inEdges[v]|
    requires v !in vis0 && cut <= cut' && SinksIn(n.arena, cut, 0, vis0)
    requires forall k :: |cut| <= k < |cut'| && cut'[k] < |n.arena| && n.arena[cut'[k]].sink == v ==>
                           cut'[k] in n.inEdges[v][..i]
    ensures n.inEdges[v][i] !in cut'
  {
    var h := n.inEdges[v][i];
    assert InEntry(n, v, h);
    NoRepeatsAt(n.inEdges[v], i);
  }

  /** The saturated edges min_cut keeps from a cut without repeats have no repeats. */
  lemma {:induction false} UnreachedNoRepeats(a: seq<Edge>, cut: seq<nat>, vis: set<Vertex>)
    requires forall i :: 0 <= i < |cut| ==> cut[i] < |a|
    requires NoRepeats(cut)
    ensures NoRepeats(Unreached(a, cut, vis))
  {
    if cut != [] {
      var init, last := cut[..|cut| - 1], cut[|cut| - 1];
      NoRepeatsInit(cut);
      UnreachedNoRepeats(a, init, vis);
      if a[last].source !in vis {
        AppendNew(Unreached(a, init, vis), last);
      } else {
        assert Unreached(a, cut, vis) == Unreached(a, init, vis);
      }
    }
  }

  /** Every in-edge of x has been dealt with. */
  ghost predicate SweptAt(n: Net, x: Vertex, vis: set<Vertex>, cut: seq<nat>)
  {
    x in n.inEdges && forall h :: h in n.inEdges[x] ==> SweptEdge(n, h, vis, cut)
  }

  /** A residual in-edge of a vertex that reaches t makes its source reach t. */
  lemma ReachBack(n: Net, h: nat, t: Vertex)
    requires h < |n.arena| && n.arena[h].source in n.outEdges && h in n.outEdges[n.arena[h].source]
    requires Exceeds0(Residual(n, h)) && Reaches(n, n.arena[h].sink, t)
    ensures Reaches(n, n.arena[h].source, t)
  {
    var c :| Chain(n, n.arena[h].sink, t, c);
    var d := [Step(h, Residual(n, h))] + c;
    assert d[1..] == c;
    assert Chain(n, n.arena[h].source, t, d);
  }

  /** No vertex that reaches t is a vertex from which no chain leads to t. */
  lemma NotReached(n: Net, s: Vertex, t: Vertex, vis: set<Vertex>)
    requires ReachAll(n, vis, t) && forall c :: !Chain(n, s, t, c)
    ensures s !in vis
  {
  }

  /** What was dealt with stays dealt with as the visited set and the cut grow. */
  lemma SweptGrows(n: Net, x: Vertex, vis: set<Vertex>, cut: seq<nat>, vis': set<Vertex>, cut': seq<nat>)
    requires SweptAt(n, x, vis, cut) && vis <= vis' && cut <= cut'
    ensures SweptAt(n, x, vis', cut')
  {
    forall h | h in n.inEdges[x] ensures SweptEdge(n, h, vis', cut') {
      assert SweptEdge(n, h, vis, cut);
      if h in cut {
        var i :| 0 <= i < |cut| && cut[i] == h;
        assert cut'[i] == h;
      }
    }
  }

  /** No in-edge with residual capacity left enters vis from outside. */
  ghost predicate BackClosed(n: Net, vis: set<Vertex>)
  {
    forall x, h ::
      (x in vis && x in n.inEdges && h in n.inEdges[x] && h < |n.arena| && Exceeds0(Residual(n, h)))
      ==> n.arena[h].source in vis
  }

  /** After the traversal from the sink has dealt with every visited vertex, min_cut's result
      holds exactly the saturated in-edges of visited vertices that come from outside. */
  lemma CutExact(n: Net, vis: set<Vertex>, sat: seq<nat>)
    requires forall k :: 0 <= k < |sat| ==> SaturatedIn(n, sat[k], vis)
    requires forall x :: x in vis ==> SweptAt(n, x, vis, sat)
    ensures forall i :: 0 <= i < |sat| ==> sat[i] < |n.arena|
    ensures forall h: nat :: h in Unreached(n.arena, sat, vis) <==> SaturatedIn(n, h, vis) && n.arena[h].source !in vis
    ensures BackClosed(n, vis)
  {
    assert forall i :: 0 <= i < |sat| ==> sat[i] < |n.arena|;
    forall h: nat | SaturatedIn(n, h, vis) ensures h in sat {
      assert SweptAt(n, n.arena[h].sink, vis, sat);
    }
    forall x, h | x in vis && x in n.inEdges && h in n.inEdges[x] && h < |n.arena| && Exceeds0(Residual(n, h))
      ensures n.arena[h].source in vis
    {
      assert SweptAt(n, x, vis, sat);
    }
  }

  /** A set of vertices that holds t and lets no residual in-edge in from outside holds every
      vertex with a residual chain to t. */
  lemma {:induction false} ChainIntoClosed(n: Net, vis: set<Vertex>, x: Vertex, t: Vertex, c: seq<Step>)
    requires OutListsOk(n) && BackClosed(n, vis) && t in vis && Chain(n, x, t, c)
    ensures x in vis
    decreases |c|
  {
    if c != [] {
      var h := c[0].edge;
      assert OutEntry(n, x, h);
      ChainIntoClosed(n, vis, n.arena[h].sink, t, c[1..]);
    }
  }

  /** The set the traversal from t visits is exactly the set of vertices with a residual chain
      to t. */
  lemma VisitedIsReach(n: Net, vis: set<Vertex>, t: Vertex)
    requires OutListsOk(n) && BackClosed(n, vis) && t in vis && ReachAll(n, vis, t)
    ensures forall x :: x in vis <==> Reaches(n, x, t)
  {
    forall x | Reaches(n, x, t) ensures x in vis {
      var c :| Chain(n, x, t, c);
      ChainIntoClosed(n, vis, x, t, c);
    }
  }

  /** A sequence of listed edges of positive capacity, each leaving the vertex the previous one
      entered: a route from `from` to `to` in the network as built, flows aside. */
  ghost predicate Walk(n: Net, from: Vertex, to: Vertex, hs: seq<nat>)
    decreases |hs|
  {
    if hs == [] then from == to
    else
      from in n.outEdges && hs[0] in n.outEdges[from] && hs[0] < |n.arena|
      && n.arena[hs[0]].source == from && IsPositive(n.arena[hs[0]].capacity)
      && Walk(n, n.arena[hs[0]].sink, to, hs[1..])
  }

  /** Every walk from a vertex outside a back-closed set to a vertex inside it uses a saturated
      edge from outside into the set: the edges min_cut returns separate source from sink. */
  lemma {:induction false} CutSeparates(n: Net, vis: set<Vertex>, s: Vertex, t: Vertex, hs: seq<nat>)
    requires OutListsOk(n) && BackClosed(n, vis) && t in vis && s !in vis && Walk(n, s, t, hs)
    ensures exists i :: 0 <= i < |hs| && SaturatedIn(n, hs[i], vis) && n.arena[hs[i]].source !in vis
    decreases |hs|
  {
    var h := hs[0];
    var y := n.arena[h].sink;
    assert OutEntry(n, s, h);
    if y in vis {
      assert SaturatedIn(n, h, vis);
    } else {
      CutSeparates(n, vis, y, t, hs[1..]);
      var i :| 0 <= i < |hs[1..]| && SaturatedIn(n, hs[1..][i], vis) && n.arena[hs[1..][i]].source !in vis;
      assert hs[i + 1] == hs[1..][i];
    }
  }

  /** When the cut is exactly the saturated edges from outside into a back-closed set holding t
      but not s, every walk from s to t uses an edge of the cut. */
  lemma CutMeetsWalks(n: Net, vis: set<Vertex>, s: Vertex, t: Vertex, cut: seq<nat>)
    requires OutListsOk(n) && BackClosed(n, vis) && t in vis && s !in vis
    requires forall h: nat :: h in cut <==> SaturatedIn(n, h, vis) && n.arena[h].source !in vis
    ensures forall hs :: Walk(n, s, t, hs) ==> exists i :: 0 <= i < |hs| && hs[i] in cut
  {
    forall hs | Walk(n, s, t, hs) ensures exists i :: 0 <= i < |hs| && hs[i] in cut {
      CutSeparates(n, vis, s, t, hs);
    }
  }

  /** The saturated edges of cut whose source is not in vis, in order (the last loop of
      min_cut). */
  function Unreached(a: seq<Edge>, cut: seq<nat>, vis: set<Vertex>): (r: seq<nat>)
    requires forall i :: 0 <= i < |cut| ==> cut[i] < |a|
    ensures forall h :: h in r <==> h in cut && h < |a| && a[h].source !in vis
  {
    if cut == [] then []
    else
      var init := cut[..|cut| - 1];
      var h := cut[|cut| - 1];
      assert forall k :: k in cut <==> k in init || k == h;
      Unreached(a, init, vis) + (if a[h].source !in vis then [h] else [])
  }

  /** The last loop of min_cut. */
  method KeepUnreached(a: seq<Edge>, cut: seq<nat>, vis: set<Vertex>) returns (r: seq<nat>)
    requires forall i :: 0 <= i < |cut| ==> cut[i] < |a|
    ensures r == Unreached(a, cut, vis)
  {
    r := [];
    var i := 0;
    while i < |cut|
      invariant 0 <= i <= |cut|
      invariant r == Unreached(a, cut[..i], vis)
    {
      assert cut[..i + 1][..i] == cut[..i];
      if !(a[cut[i]].source in vis) {
        r := r + [cut[i]];
      }
      i := i + 1;
    }
    assert cut[..|cut|] == cut;
  }

  // ---------------------------------------------------------------------------------------
  // The network object

  /** One loop of remove_edge: the entries of list that satisfy Drops are set aside, the rest
      kept in order. */
  method FilterEdges(a: seq<Edge>, list: seq<nat>, other: Vertex, bySink: bool, positive: bool)
    returns (kept: seq<nat>, dropped: set<nat>)
    requires forall h :: h in list ==> h < |a|
    ensures dropped == DropSet(a, list, other, bySink, positive)
    ensures kept == Prune(list, dropped)
  {
    ghost var all := DropSet(a, list, other, bySink, positive);
    kept, dropped := [], {};
    var i := 0;
    while i < |list|
      invariant 0 <= i <= |list|
      invariant forall h :: h in dropped <==> h in list[..i] && h < |a| && Drops(a[h], other, bySink, positive)
      invariant kept == Prune(list[..i], all)
    {
      var edge := list[i];
      assert edge in list;
      assert list[..i + 1][..i] == list[..i];
      if Drops(a[edge], other, bySink, positive) {
        dropped := dropped + {edge};
      } else {
        kept := kept + [edge];
      }
      i := i + 1;
    }
    assert list[..|list|] == list;
  }

  /** The four loops of remove_edge(u, v) in the order they run: out[u] and in[v] lose the
      positive edges u->v, then in[u] and out[v] lose the capacity-0 edges v->u; each loop
      deletes the flow entries of what it drops. */
  ghost function RemoveLoops(n: Net, u: Vertex, v: Vertex): Net
    requires u in n.outEdges && v in n.outEdges && u in n.inEdges && v in n.inEdges
  {
    var d1 := DropSet(n.arena, n.outEdges[u], v, true, true);
    var o1 := n.outEdges[u := Prune(n.outEdges[u], d1)];
    var d2 := DropSet(n.arena, n.inEdges[v], u, false, true);
    var i1 := n.inEdges[v := Prune(n.inEdges[v], d2)];
    var d3 := DropSet(n.arena, i1[u], v, false, false);
    var i2 := i1[u := Prune(i1[u], d3)];
    var d4 := DropSet(n.arena, o1[v], u, true, false);
    var o2 := o1[v := Prune(o1[v], d4)];
    Net(n.arena, o2, i2, n.flow - d1 - d2 - d3 - d4)
  }

  /** The four loops together delete exactly the doomed edges, for u == v (nothing) as for u != v. */
  lemma RemoveLoopsPruned(n: Net, u: Vertex, v: Vertex)
    requires Structured(n) && u in n.outEdges && v in n.outEdges
    ensures RemoveLoops(n, u, v) == PruneNet(n, DoomedLive(n, u, v))
  {
    if u == v {
      LoopRemovesNothing(n, u);
      assert n.outEdges[u := n.outEdges[u]] == n.outEdges;
      assert n.inEdges[u := n.inEdges[u]] == n.inEdges;
    } else {
      RemovedAsPruned(n, u, v);
    }
  }

  /** The loops of remove_edge run over the lists and the flow map as values. */
  method RemoveLoopsOn(a: seq<Edge>, outs0: map<Vertex, seq<nat>>, ins0: map<Vertex, seq<nat>>, flow0: map<nat, int>,
                       u: Vertex, v: Vertex)
    returns (outs: map<Vertex, seq<nat>>, ins: map<Vertex, seq<nat>>, flows: map<nat, int>)
    requires u in outs0 && v in outs0 && u in ins0 && v in ins0
    requires forall x, h :: x in outs0 && h in outs0[x] ==> h < |a|
    requires forall x, h :: x in ins0 && h in ins0[x] ==> h < |a|
    ensures Net(a, outs, ins, flows) == RemoveLoops(Net(a, outs0, ins0, flow0), u, v)
  {
    outs, ins, flows := outs0, ins0, flow0;
    var kept, dropped;
    // remove forward edge
    kept, dropped := FilterEdges(a, outs[u], v, true, true);
    outs, flows := outs[u := kept], flows - dropped;
    kept, dropped := FilterEdges(a, ins[v], u, false, true);
    ins, flows := ins[v := kept], flows - dropped;
    // remove counter-flow edge
    assert forall h :: h in ins[u] ==> h < |a| by {
      PruneMembers(ins0[v], DropSet(a, ins0[v], u, false, true));
    }
    kept, dropped := FilterEdges(a, ins[u], v, false, false);
    ins, flows := ins[u := kept], flows - dropped;
    assert forall h :: h in outs[v] ==> h < |a| by {
      PruneMembers(outs0[u], DropSet(a, outs0[u], v, true, true));
    }
    kept, dropped := FilterEdges(a, outs[v], u, true, false);
    outs, flows := outs[v := kept], flows - dropped;
  }

  class FlowNetwork {
    var arena: seq<Edge>
    var outEdges: map<Vertex, seq<nat>>
    var inEdges: map<Vertex, seq<nat>>
    var flow: map<nat, int>
    /** The vertices reached by the backward traversal of the last min_cut. */
    var visited: set<Vertex>

    function State(): Net
      reads this
    {
      Net(arena, outEdges, inEdges, flow)
    }

    ghost predicate Valid()
      reads this
    {
      ValidNet(State())
    }

    constructor ()
      ensures Valid() && State() == Net([], map[], map[], map[]) && visited == {}
    {
      arena, outEdges, inEdges, flow, visited := [], map[], map[], map[], {};
    }

    /** add_vertex: fresh, empty lists for vertex (an existing vertex's lists are emptied). */
    method AddVertex(vertex: Vertex)
      modifies this
      ensures State() == Net(old(arena), old(outEdges)[vertex := []], old(inEdges)[vertex := []], old(flow))
      ensures visited == old(visited)
      ensures old(Valid()) && vertex !in old(outEdges) ==> Valid()
    {
      if Valid() && vertex !in outEdges {
        AddedVertexValid(State(), vertex);
      }
      outEdges := outEdges[vertex := []];
      inEdges := inEdges[vertex := []];
    }

    /** add_edge(u, v, w): see AddedPair. */
    method AddEdge(u: Vertex, v: Vertex, w: Cap)
      requires u != v ==> u in outEdges && v in outEdges && u in inEdges && v in inEdges
      modifies this
      ensures State() == AddedPair(old(State()), u, v, w)
      ensures visited == old(visited)
      ensures old(Valid()) ==> Valid()
    {
      ghost var n := State();
      if Valid() {
        AddedPairValid(n, u, v, w);
      }
      if u != v {
        var f, r := |arena|, |arena| + 1;
        var edge := Edge(u, v, w, r);
        var redge := Edge(v, u, Finite(0), f);
        var outs := outEdges[u := outEdges[u] + [f]];
        outs := outs[v := outs[v] + [r]];
        var ins := inEdges[u := inEdges[u] + [r]];
        ins := ins[v := ins[v] + [f]];
        arena, outEdges, inEdges, flow := arena + [edge, redge], outs, ins, flow[f := 0][r := 0];
      }
      assert State() == AddedPair(n, u, v, w);
    }

    /** remove_edge(u, v): deletes, from all four lists and from the flow map, the edges u->v
        of positive capacity and v->u of capacity 0; every other entry stays, in order. */
    method RemoveEdge(u: Vertex, v: Vertex)
      requires Valid() && u in outEdges && v in outEdges
      modifies this
      ensures Valid()
      ensures State() == PruneNet(old(State()), DoomedLive(old(State()), u, v))
      ensures DoomedLive(old(State()), u, v) == {} ==> State() == old(State())
      ensures visited == old(visited)
    {
      ghost var n := State();
      var outs, ins, flows := RemoveEdgeLoops(u, v);
      SetLists(outs, ins, flows);
      PrunedValid(n, u, v, State());
    }

    /** Installs new edge lists and a new flow map; the arena and the visited set stay. */
    method SetLists(outs: map<Vertex, seq<nat>>, ins: map<Vertex, seq<nat>>, flows: map<nat, int>)
      modifies this
      ensures State() == Net(old(arena), outs, ins, flows) && visited == old(visited)
    {
      outEdges, inEdges, flow := outs, ins, flows;
    }

    /** The four loops of remove_edge, computing the new lists and flow map. */
    method RemoveEdgeLoops(u: Vertex, v: Vertex)
      returns (outs: map<Vertex, seq<nat>>, ins: map<Vertex, seq<nat>>, flows: map<nat, int>)
      requires Valid() && u in outEdges && v in outEdges
      ensures Net(arena, outs, ins, flows) == PruneNet(State(), DoomedLive(State(), u, v))
    {
      ghost var n := State();
      ListsBelow(n);
      RemoveLoopsPruned(n, u, v);
      outs, ins, flows := RemoveLoopsOn(arena, outEdges, inEdges, flow, u, v);
    }

    /** has_edge(u, v): whether some out-edge of u has sink v. */
    method HasEdge(u: Vertex, v: Vertex) returns (b: bool)
      requires Valid() && u in outEdges
      ensures b <==> exists h :: h in outEdges[u] && h < |arena| && arena[h].sink == v
    {
      OutListedBelow(State(), u);
      b := AnyToSink(arena, outEdges[u], v);
    }

    /** The body of both loops of remove_vertex: remove_edge(u, v), then remove_edge(v, u).
        Together they delete every edge between u and v. */
    method RemoveBetween(u: Vertex, v: Vertex) returns (ghost d: set<nat>)
      requires Valid() && u in outEdges && v in outEdges
      modifies this
      ensures Valid() && outEdges.Keys == old(outEdges).Keys
      ensures d == BetweenLive(old(State()), u, v)
      ensures State() == PruneNet(old(State()), d)
      ensures visited == old(visited)
    {
      ghost var n := State();
      RemoveEdge(u, v);
      ghost var m := State();
      RemoveEdge(v, u);
      DoomedBoth(n, u, v);
      d := BetweenLive(n, u, v);
      PruneNetTwice(n, DoomedLive(n, u, v), DoomedLive(m, v, u));
    }

    /** find_path(source, sink, path, visited): depth-first search for a residual path. An
        out-edge is taken when its residual is positive, it is not yet visited, and the pair
        (edge, residual) is not on the path; it is then marked visited for the rest of the search.
        The visited set is threaded through and returned. */
    method FindPath(source: Vertex, sink: Vertex, path: Path, visited: set<nat>)
      returns (result: Option<Path>, visited': set<nat>)
      requires Searchable(State()) && source in outEdges
      requires forall h :: h in visited ==> h < |arena|
      ensures visited <= visited' && forall h :: h in visited' ==> h < |arena|
      ensures result.Some? ==> Found(State(), source, sink, path.steps, result.value.steps, visited, visited')
      ensures result.None? && EdgesWithin(path.steps, visited) ==>
        source != sink && Covered(State(), source, visited') && Closed(State(), visited, visited', sink)
      decreases Below(|arena|) - visited
    {
      if source == sink {
        assert path.steps[|path.steps|..] == [];
        return Some(path), visited;
      }
      ghost var n := State();
      var edges := outEdges[source];
      visited' := visited;
      var i := 0;
      while i < |edges|
        invariant 0 <= i <= |edges|
        invariant visited <= visited' && forall h :: h in visited' ==> h < |arena|
        invariant n == State()
        invariant forall j :: 0 <= j < i && Exceeds0(Residual(n, edges[j])) ==>
          edges[j] in visited' || path.InPath(edges[j], Residual(n, edges[j]))
        invariant EdgesWithin(path.steps, visited) ==> Closed(n, visited, visited', sink)
      {
        var edge := edges[i];
        OutEdgeAt(n, source, edge);
        var residual := Residual(State(), edge);
        if Exceeds0(residual) && edge !in visited' && !path.InPath(edge, residual) {
          ghost var cur := visited';
          visited' := visited' + {edge};
          var newPath := path.Copy();
          newPath.AddEdge(edge, residual);
          var r;
          assert newPath.steps == path.steps + [Step(edge, residual)];
          r, visited' := FindPath(arena[edge].sink, sink, newPath, visited');
          assert State() == n;
          if r.Some? {
            FoundExtends(n, source, sink, path.steps, Step(edge, residual), r.value.steps, visited, cur, visited');
            return r, visited';
          }
          if EdgesWithin(path.steps, visited) {
            PathWithin(path.steps, Step(edge, residual), cur + {edge});
            ClosedStep(n, visited, cur, edge, visited', sink);
          }
        }
        i := i + 1;
      }
      return None, visited';
    }

    /** reset_flows: every flow entry set to 0. */
    method ResetFlows()
      modifies this`flow
      ensures flow == Zeroed(old(flow)) && flow.Keys == old(flow).Keys
      ensures old(Valid()) ==> Valid()
    {
      ghost var n := State();
      var keys := flow.Keys;
      ghost var f := flow;
      while keys != {}
        invariant keys <= f.Keys && flow.Keys == f.Keys
        invariant forall h :: h in flow ==> flow[h] == if h in keys then f[h] else 0
        decreases keys
      {
        var h :| h in keys;
        flow := flow[h := 0];
        keys := keys - {h};
      }
      assert flow == Zeroed(f);
      if ValidNet(n) {
        ZeroedLawful(n.arena, n.flow);
        FlowKeysStructured(n, flow);
        assert State() == Net(n.arena, n.outEdges, n.inEdges, Zeroed(n.flow));
      }
    }

    /** The inner loop of max_flow: the bottleneck b added to the flow of every edge of the
        path and subtracted from the flow of its reverse edge. */
    method Augment(p: Path, b: int)
      requires StepsLive(flow, arena, p.steps)
      modifies this`flow
      ensures flow == PushAll(old(flow), arena, p.steps, b)
    {
      ghost var f := flow;
      ghost var s := p.steps;
      var i := 0;
      while i < p.Length()
        invariant 0 <= i <= |s| && s == p.steps && StepsLive(f, arena, s[..i])
        invariant flow == PushAll(f, arena, s[..i], b)
      {
        var edge := p.GetEdge(i);
        assert s[..i + 1][..i] == s[..i];
        assert StepsLive(f, arena, s[..i + 1]);
        flow := PushStep(flow, arena, edge, b);
        i := i + 1;
      }
      assert s[..|s|] == s;
    }

    /** One round of max_flow on a path find_path found, whose bottleneck is b: b is pushed
        along the path, which keeps the invariant, and the next search starts. */
    method AugmentOnce(source: Vertex, sink: Vertex, p: Path, seen: set<nat>, b: int, ghost v: int)
      returns (path: Option<Path>, seen': set<nat>)
      requires Valid() && source in outEdges && Found(State(), source, sink, [], p.steps, {}, seen)
      requires MinResidual(p.steps) == Fin(b)
      requires source != sink ==> Conserved(State(), source, sink, v)
      modifies this`flow
      ensures Valid() && flow.Keys == old(flow).Keys
      ensures source != sink ==> Conserved(State(), source, sink, v + b)
      ensures path.Some? ==> Found(State(), source, sink, [], path.value.steps, {}, seen')
      ensures path.None? ==> source != sink && Covered(State(), source, seen') && Closed(State(), {}, seen', sink)
    {
      ghost var n := State();
      FoundAugmenting(n, source, sink, p.steps, seen, b);
      Augment(p, b);
      RoundKept(n, State(), source, sink, p.steps, b, v);
      path, seen' := Search(source, sink);
    }

    /** The search max_flow starts for each augmentation: find_path(source, sink) from an empty
        path and an empty visited set. */
    method Search(source: Vertex, sink: Vertex) returns (path: Option<Path>, seen: set<nat>)
      requires Valid() && source in outEdges
      ensures path.Some? ==> Found(State(), source, sink, [], path.value.steps, {}, seen)
      ensures path.None? ==> source != sink && Covered(State(), source, seen) && Closed(State(), {}, seen, sink)
    {
      var start := new Path();
      path, seen := FindPath(source, sink, start, {});
    }

    /** max_flow(source, sink): Ford-Fulkerson from the zero flow. While find_path finds a
        path, its bottleneck is pushed along it; the result is the flow summed over the source's
        out-edges. Each augmentation uses one unit of fuel. The value returned is the value of
        a conserved flow, built from the zero flow, that no residual chain can augment. */
    method MaxFlow(source: Vertex, sink: Vertex, fuel: nat) returns (r: FlowOutcome)
      requires Valid() && source in outEdges
      modifies this`flow
      ensures Valid() && flow.Keys == old(flow).Keys
      ensures r.MaxFlowValue? ==> (forall i :: 0 <= i < |outEdges[source]| ==> outEdges[source][i] in flow)
                                  && r.value == FlowSum(flow, outEdges[source])
      ensures r.MaxFlowValue? ==> source != sink && Conserved(State(), source, sink, r.value)
      ensures r.MaxFlowValue? ==> forall c :: !Chain(State(), source, sink, c)
    {
      ghost var n0 := State();
      var path, seen := Restart(source, sink);
      var stopped;
      ghost var pushed;
      stopped, seen, pushed := AugmentAll(source, sink, path, seen, fuel);
      ListedKeys(n0, State());
      if stopped.Some? {
        return stopped.value;
      }
      var total := FlowOut(source, sink, seen);
      r := MaxFlowValue(total);
    }

    /** The start of max_flow: every flow reset to 0, then the first search. */
    method Restart(source: Vertex, sink: Vertex) returns (path: Option<Path>, seen: set<nat>)
      requires Valid() && source in outEdges
      modifies this`flow
      ensures Valid() && flow.Keys == old(flow).Keys && flow == Zeroed(old(flow))
      ensures source != sink ==> Conserved(State(), source, sink, 0)
      ensures path.Some? ==> Found(State(), source, sink, [], path.value.steps, {}, seen)
      ensures path.None? ==> source != sink && Covered(State(), source, seen) && Closed(State(), {}, seen, sink)
    {
      ghost var n := State();
      ResetFlows();
      ZeroedConserved(n, source, sink);
      path, seen := Search(source, sink);
    }

    /** The loop of max_flow: while find_path finds a path, its bottleneck is pushed along it.
        It stops early on an infinite bottleneck or when the fuel runs out. */
    method AugmentAll(source: Vertex, sink: Vertex, path0: Option<Path>, seen0: set<nat>, fuel: nat)
      returns (stopped: Option<FlowOutcome>, seen: set<nat>, ghost pushed: int)
      requires Valid() && source in outEdges
      requires path0.Some? ==> Found(State(), source, sink, [], path0.value.steps, {}, seen0)
      requires path0.None? ==> source != sink && Covered(State(), source, seen0) && Closed(State(), {}, seen0, sink)
      requires source != sink ==> Conserved(State(), source, sink, 0)
      modifies this`flow
      ensures Valid()
      ensures source != sink ==> Conserved(State(), source, sink, pushed)
      ensures stopped.Some? ==> stopped.value.OutOfFuel? || stopped.value.InfiniteBottleneck?
      ensures stopped.None? ==> source != sink && Covered(State(), source, seen) && Closed(State(), {}, seen, sink)
    {
      var path := path0;
      seen := seen0;
      pushed := 0;
      var left := fuel;
      while path.Some? && left > 0 && path.value.GetMinFlow().Fin?
        invariant Valid()
        invariant source != sink ==> Conserved(State(), source, sink, pushed)
        invariant path.Some? ==> Found(State(), source, sink, [], path.value.steps, {}, seen)
        invariant path.None? ==> source != sink && Covered(State(), source, seen) && Closed(State(), {}, seen, sink)
        decreases left
      {
        var bottleneck := path.value.GetMinFlow();
        path, seen := AugmentOnce(source, sink, path.value, seen, bottleneck.value, pushed);
        pushed := pushed + bottleneck.value;
        left := left - 1;
      }
      if path.None? {
        stopped := None;
      } else if left == 0 {
        stopped := Some(OutOfFuel);
      } else {
        stopped := Some(InfiniteBottleneck);
      }
    }

    /** The value max_flow returns once no augmenting path is left: the flow summed over the
        source's out-edges; no chain of edges with residual capacity joins source to sink. */
    method FlowOut(source: Vertex, sink: Vertex, seen: set<nat>) returns (total: int)
      requires Valid() && source != sink && Covered(State(), source, seen) && Closed(State(), {}, seen, sink)
      ensures forall i :: 0 <= i < |outEdges[source]| ==> outEdges[source][i] in flow
      ensures total == FlowSum(flow, outEdges[source])
      ensures forall c :: !Chain(State(), source, sink, c)
    {
      forall c ensures !Chain(State(), source, sink, c) {
        NoChainFromClosed(State(), source, sink, seen, c);
      }
      OutListedFlow(State(), source);
      total := SumFlows(flow, outEdges[source]);
    }

    /** min_cut(source, sink): max_flow, then the backward traversal from the sink over in-edges
        with residual capacity left; the result is the saturated in-edges of the visited vertices
        whose source was not visited, in the order the traversal met them. When max_flow ended
        with no augmenting path left, the source is not visited, so these edges separate it
        from the sink. */
    method MinCut(source: Vertex, sink: Vertex, fuel: nat) returns (outcome: FlowOutcome, cut: seq<nat>)
      requires Valid() && source in outEdges && sink in outEdges
      modifies this`flow, this`visited
      ensures Valid() && flow.Keys == old(flow).Keys
      ensures sink in visited && visited <= inEdges.Keys
      ensures forall h: nat :: h in cut <==> SaturatedIn(State(), h, visited) && arena[h].source !in visited
      ensures BackClosed(State(), visited)
      ensures forall x :: x in visited <==> Reaches(State(), x, sink)
      ensures NoRepeats(cut)
      ensures outcome.MaxFlowValue? ==> source !in visited
      ensures outcome.MaxFlowValue? ==> source != sink && Conserved(State(), source, sink, outcome.value)
      ensures outcome.MaxFlowValue? ==> forall hs :: Walk(State(), source, sink, hs) ==> exists i :: 0 <= i < |hs| && hs[i] in cut
    {
      outcome := MaxFlow(source, sink, fuel);
      ghost var n := State();
      visited := {};
      assert Chain(n, sink, sink, []);
      var saturated := FindSaturatedEdges(sink, [], sink);
      assert State() == n;
      if outcome.MaxFlowValue? {
        NotReached(n, source, sink, visited);
      }
      CutExact(n, visited, saturated);
      VisitedIsReach(n, visited, sink);
      UnreachedNoRepeats(arena, saturated, visited);
      cut := KeepUnreached(arena, saturated, visited);
      if outcome.MaxFlowValue? {
        CutMeetsWalks(n, visited, source, sink, cut);
      }
    }

    /** find_saturated_edges(vertex, cut): unless vertex was visited, marks it visited and walks
        its in-edges: one with residual capacity left leads on to its source; a saturated one
        with positive capacity is appended to cut. The ghost target t is a vertex that every
        visited vertex reaches; at the start of min_cut it is the sink. */
    method FindSaturatedEdges(vertex: Vertex, cut: seq<nat>, ghost t: Vertex) returns (cut': seq<nat>)
      requires Searchable(State()) && ListsDistinct(State())
      requires vertex in visited || vertex in inEdges
      requires Reaches(State(), vertex, t) && ReachAll(State(), visited, t)
      requires NoRepeats(cut) && SinksIn(arena, cut, 0, visited)
      modifies this`visited
      ensures State() == old(State())
      ensures old(visited) <= visited && vertex in visited && visited - old(visited) <= inEdges.Keys
      ensures cut <= cut' && NoRepeats(cut')
      ensures forall k :: |cut| <= k < |cut'| ==> SaturatedIn(State(), cut'[k], visited)
      ensures SinksIn(arena, cut', |cut|, visited - old(visited))
      ensures forall x :: x in visited && x !in old(visited) ==> SweptAt(State(), x, visited, cut')
      ensures ReachAll(State(), visited, t)
      decreases inEdges.Keys - visited, 0
    {
      cut' := cut;
      if vertex in visited {
        return;
      }
      ghost var n := State();
      ghost var vis0 := visited;
      var edges := inEdges[vertex];
      visited := visited + {vertex};
      var i := 0;
      while i < |edges|
        invariant 0 <= i <= |edges| && n == State()
        invariant vis0 + {vertex} <= visited && visited - vis0 <= inEdges.Keys
        invariant cut <= cut' && NoRepeats(cut')
        invariant forall k :: |cut| <= k < |cut'| ==> SaturatedIn(n, cut'[k], visited)
        invariant SinksIn(arena, cut', |cut|, visited - vis0)
        invariant forall k :: |cut| <= k < |cut'| && arena[cut'[k]].sink == vertex ==> cut'[k] in edges[..i]
        invariant forall x :: x in visited && x !in vis0 && x != vertex ==> SweptAt(n, x, visited, cut')
        invariant forall j :: 0 <= j < i ==> SweptEdge(n, edges[j], visited, cut')
        invariant ReachAll(n, visited, t)
      {
        var edge := edges[i];
        NewAtSink(n, vertex, i, vis0, cut, cut');
        ghost var before := cut';
        cut' := SweepEdge(vertex, edge, vis0, cut, cut', t);
        assert edges[..i + 1] == edges[..i] + [edge];
        i := i + 1;
      }
    }

    /** One pass of the loop of find_saturated_edges at vertex, on its in-edge edge. */
    method SweepEdge(vertex: Vertex, edge: nat, ghost vis0: set<Vertex>, ghost cut: seq<nat>, cut0: seq<nat>,
                     ghost t: Vertex) returns (cut': seq<nat>)
      requires Searchable(State()) && vertex in inEdges && edge in inEdges[vertex]
      requires vis0 + {vertex} <= visited && visited - vis0 <= inEdges.Keys
      requires ListsDistinct(State()) && vertex !in vis0
      requires cut <= cut0 && NoRepeats(cut0) && edge !in cut0
      requires SinksIn(arena, cut, 0, vis0) && SinksIn(arena, cut0, |cut|, visited - vis0)
      requires forall k :: |cut| <= k < |cut0| ==> SaturatedIn(State(), cut0[k], visited)
      requires forall x :: x in visited && x !in vis0 && x != vertex ==> SweptAt(State(), x, visited, cut0)
      requires ReachAll(State(), visited, t)
      modifies this`visited
      ensures State() == old(State())
      ensures old(visited) <= visited && visited - vis0 <= inEdges.Keys
      ensures cut0 <= cut' && NoRepeats(cut') && SinksIn(arena, cut', |cut|, visited - vis0)
      ensures forall k :: |cut0| <= k < |cut'| ==> cut'[k] == edge || arena[cut'[k]].sink != vertex
      ensures forall k :: |cut| <= k < |cut'| ==> SaturatedIn(State(), cut'[k], visited)
      ensures forall x :: x in visited && x !in vis0 && x != vertex ==> SweptAt(State(), x, visited, cut')
      ensures SweptEdge(State(), edge, visited, cut')
      ensures ReachAll(State(), visited, t)
      decreases inEdges.Keys - visited, 1
    {
      ghost var n := State();
      assert InEntry(n, vertex, edge);
      var residual := Residual(State(), edge);
      if Exceeds0(residual) {
        ReachBack(n, edge, t);
        ghost var vis1 := visited;
        cut' := FindSaturatedEdges(arena[edge].source, cut0, t);
        forall x | x in visited && x !in vis0 && x != vertex
          ensures SweptAt(n, x, visited, cut')
        {
          if x in vis1 {
            SweptGrows(n, x, vis1, cut0, visited, cut');
          }
        }
        assert forall k :: |cut| <= k < |cut0| ==> cut'[k] == cut0[k];
      } else if IsPositive(arena[edge].capacity) {
        cut' := cut0 + [edge];
        AppendNew(cut0, edge);
        forall x | x in visited && x !in vis0 && x != vertex
          ensures SweptAt(n, x, visited, cut')
        {
          SweptGrows(n, x, visited, cut0, visited, cut');
        }
      } else {
        cut' := cut0;
      }
    }

    /** remove_vertex(vertex): deletes every edge at vertex (see ClearVertex), then its lists. */
    method RemoveVertex(vertex: Vertex)
      requires Valid() && vertex in outEdges
      modifies this
      ensures Valid()
      ensures State() == Detach(old(State()), vertex)
      ensures visited == old(visited)
    {
      ghost var start := State();
      DetachValid(start, vertex);
      ClearVertex(vertex);
      outEdges, inEdges := outEdges - {vertex}, inEdges - {vertex};
    }

    /** The two loops of remove_vertex: they delete the edges between vertex and the sink of its
        first out-edge until none is left, then likewise with the source of its first in-edge.
        In the end every edge at vertex is gone. */
    method ClearVertex(vertex: Vertex)
      requires Valid() && vertex in outEdges
      modifies this
      ensures Valid()
      ensures State() == PruneNet(old(State()), IncidentLive(old(State()), vertex))
      ensures visited == old(visited)
    {
      ghost var start := State();
      ghost var gone: set<nat> := {};
      PruneNetNothing(start, {});
      while outEdges[vertex] != []
        invariant Valid() && vertex in outEdges
        invariant gone <= IncidentLive(start, vertex)
        invariant State() == PruneNet(start, gone)
        invariant visited == old(visited)
        decreases |outEdges[vertex]|
      {
        gone := OutRound(vertex, start, gone);
      }
      while inEdges[vertex] != []
        invariant Valid() && vertex in outEdges && outEdges[vertex] == []
        invariant gone <= IncidentLive(start, vertex)
        invariant State() == PruneNet(start, gone)
        invariant visited == old(visited)
        decreases |inEdges[vertex]|
      {
        gone := InRound(vertex, start, gone);
      }
      AllIncidentGone(start, gone, vertex);
    }

    /** One round of remove_vertex's first loop: the edges between vertex and the sink of its
        first out-edge go, that first edge among them. */
    method OutRound(vertex: Vertex, ghost start: Net, ghost gone: set<nat>) returns (ghost gone': set<nat>)
      requires Valid() && vertex in outEdges && outEdges[vertex] != []
      requires gone <= IncidentLive(start, vertex) && State() == PruneNet(start, gone)
      modifies this
      ensures Valid() && vertex in outEdges
      ensures gone' <= IncidentLive(start, vertex) && State() == PruneNet(start, gone')
      ensures |outEdges[vertex]| < |old(outEdges)[vertex]|
      ensures visited == old(visited)
    {
      ghost var before := State();
      HeadListed(before, vertex);
      var sink := arena[outEdges[vertex][0]].sink;
      BetweenAt(before, vertex, sink, outEdges[vertex][0]);
      ghost var d := RemoveBetween(vertex, sink);
      PruneHeadShrinks(before.outEdges[vertex], d);
      NextRound(start, gone, d, vertex);
      gone' := gone + d;
    }

    /** One round of remove_vertex's second loop: the edges between the source of vertex's
        first in-edge and vertex go, that first edge among them. */
    method InRound(vertex: Vertex, ghost start: Net, ghost gone: set<nat>) returns (ghost gone': set<nat>)
      requires Valid() && vertex in outEdges && outEdges[vertex] == [] && inEdges[vertex] != []
      requires gone <= IncidentLive(start, vertex) && State() == PruneNet(start, gone)
      modifies this
      ensures Valid() && vertex in outEdges && outEdges[vertex] == []
      ensures gone' <= IncidentLive(start, vertex) && State() == PruneNet(start, gone')
      ensures |inEdges[vertex]| < |old(inEdges)[vertex]|
      ensures visited == old(visited)
    {
      ghost var before := State();
      HeadListed(before, vertex);
      var source := arena[inEdges[vertex][0]].source;
      BetweenAt(before, source, vertex, inEdges[vertex][0]);
      ghost var d := RemoveBetween(source, vertex);
      PruneHeadShrinks(before.inEdges[vertex], d);
      NextRound(start, gone, d, vertex);
      gone' := gone + d;
    }
  }
}

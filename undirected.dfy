/** The undirected graph (docs/mincut.js, lines 249-386). Every mutation is mirrored into two flow
    networks: one with a pair of unit arcs u->v, v->u per undirected edge (edge cuts), and one in
    which every vertex x is split into x_in -> x_out of capacity 1 and every edge {u, v} becomes
    u_out -> v_in and v_out -> u_in of unbounded capacity (vertex cuts).

    Vertices are identified by their integer ids: the graph's label 'v' + id is recovered from
    the id and back (module Labels), so the model keys everything by id. */
module Undirected {
  import opened Labels
  import opened Edges
  import opened Network

  // ---------------------------------------------------------------------------------------
  // Labels of the network vertices

  /** The string the source uses as the key of a network vertex. It starts with 'v', and it
      ends in '_in' exactly for an in-half and in '_out' exactly for an out-half, which is what
      min_vertex_cut's replace(/_in$/, '') relies on. */
  function Label(x: Vertex): (s: string)
    ensures |s| >= 2 && s[0] == 'v'
    ensures x.In? <==> |s| >= 3 && s[|s| - 3..] == "_in"
    ensures x.Out? <==> |s| >= 4 && s[|s| - 4..] == "_out"
  {
    match x
    case V(n) => VertexLabel(Num(n))
    case In(n) => HalfLabel(n, InHalf)
    case Out(n) =>
      var s := HalfLabel(n, OutHalf);
      assert s[|s| - 3..] == "out";
      s
  }

  /** vertex_idx recovers the id from the label of every network vertex (parseInt stops at the
      '_' of a half label). */
  lemma LabelIdx(x: Vertex)
    ensures VertexIdx(Text(Label(x))) == Some(x.id)
  {
    match x
    case V(n) => LabelRoundTrip(n);
    case In(n) => HalfLabelIdx(n, InHalf);
    case Out(n) => HalfLabelIdx(n, OutHalf);
  }

  /** Labels of distinct network vertices differ. */
  lemma LabelInjectiveAll(x: Vertex, y: Vertex)
    requires Label(x) == Label(y)
    ensures x == y
  {
    LabelIdx(x);
    LabelIdx(y);
    if x.V? && !y.V? {
      HalfSuffixDiffers(x.id, y.id, if y.In? then InHalf else OutHalf);
    } else if !x.V? && y.V? {
      HalfSuffixDiffers(y.id, x.id, if x.In? then InHalf else OutHalf);
    } else if !x.V? && !y.V? {
      HalfLabelInjective(x.id, if x.In? then InHalf else OutHalf, y.id, if y.In? then InHalf else OutHalf);
    }
  }

  /** A plain label never equals a half label: the plain one ends in a digit. */
  lemma HalfSuffixDiffers(n: int, m: int, h: Half)
    ensures VertexLabel(Num(n)) != HalfLabel(m, h)
  {
    var s := VertexLabel(Num(n));
    var d := if n < 0 then NatToDecimal(-n) else NatToDecimal(n);
    assert s == "v" + (if n < 0 then ['-'] + d else d);
    assert s[|s| - 1] == d[|d| - 1];
    var t := HalfLabel(m, h);
    assert t[|t| - 1] == Suffix(h)[|Suffix(h)| - 1];
  }

  /** The min_vertex_cut reading of a vertex label: strip a trailing '_in', then vertex_idx.
      It yields the id for the label of every network vertex. */
  lemma StripLabelIdx(x: Vertex)
    ensures VertexIdx(Text(StripIn(Label(x)))) == Some(x.id)
  {
    match x
    case V(n) =>
      var s := VertexLabel(Num(n));
      var d := if n < 0 then NatToDecimal(-n) else NatToDecimal(n);
      assert s == "v" + (if n < 0 then ['-'] + d else d);
      assert s[|s| - 1] == d[|d| - 1];
      assert StripIn(s) == s;
      LabelRoundTrip(n);
    case In(n) => HalfLabelRoundTrip(n, InHalf);
    case Out(n) => HalfLabelRoundTrip(n, OutHalf);
  }

  /** vertex_idx on the label of a network vertex: the vertex's id. */
  method IdOf(x: Vertex) returns (id: int)
    ensures id == x.id
  {
    LabelIdx(x);
    id := VertexIdx(Text(Label(x))).value;
  }

  /** The translation loop of min_cut: each cut edge becomes the pair of vertex_idx of its
      endpoints' labels, which are the endpoints' ids. */
  method EndpointIds(a: seq<Edge>, cut: seq<nat>) returns (pairs: seq<(int, int)>)
    requires forall i :: 0 <= i < |cut| ==> cut[i] < |a|
    ensures |pairs| == |cut|
    ensures forall i :: 0 <= i < |cut| ==> pairs[i] == (a[cut[i]].source.id, a[cut[i]].sink.id)
  {
    pairs := [];
    for i := 0 to |cut|
      invariant |pairs| == i
      invariant forall k :: 0 <= k < i ==> pairs[k] == (a[cut[k]].source.id, a[cut[k]].sink.id)
    {
      var e := a[cut[i]];
      var u := IdOf(e.source);
      var v := IdOf(e.sink);
      pairs := pairs + [(u, v)];
    }
  }

  /** What min_vertex_cut makes of the source x of a cut edge: its label loses a trailing '_in'
      (replace(/_in$/, '')), then vertex_idx reads the rest; the result is x's id. */
  method CutId(x: Vertex) returns (id: int)
    ensures id == x.id
  {
    var name := StripIn(Label(x));
    StripLabelIdx(x);
    id := VertexIdx(Text(name)).value;
  }

  /** The translation loops of min_vertex_cut, the name of each cut edge's source read back
      as soon as it is made: the id of the source half of every cut edge, in order. */
  method CutVertexIds(a: seq<Edge>, cut: seq<nat>) returns (ids: seq<int>)
    requires forall i :: 0 <= i < |cut| ==> cut[i] < |a|
    ensures |ids| == |cut|
    ensures forall i :: 0 <= i < |cut| ==> ids[i] == a[cut[i]].source.id
  {
    ids := [];
    for i := 0 to |cut|
      invariant |ids| == i
      invariant forall k :: 0 <= k < i ==> ids[k] == a[cut[k]].source.id
    {
      var id := CutId(a[cut[i]].source);
      ids := ids + [id];
    }
  }

  // ---------------------------------------------------------------------------------------
  // The edge record of add_edge

  /** How add_edge ends: the edge is added, or one of its two warnings. */
  datatype AddOutcome = Added | AlreadyExists | InvalidEndpoint

  /** edges[u] holds v: the graph recorded the edge as (u, v). */
  predicate Recorded(edges: map<int, seq<int>>, u: int, v: int)
  {
    u in edges && v in edges[u]
  }

  /** The edge {u, v} is recorded in one direction or the other. */
  predicate Joined(edges: map<int, seq<int>>, u: int, v: int)
  {
    Recorded(edges, u, v) || Recorded(edges, v, u)
  }

  /** The first step of add_edge: a record for u is opened when neither u nor v has one. The
      owners of records are kept in the order they were opened. */
  function OpenedOwners(owners: seq<int>, edges: map<int, seq<int>>, u: int, v: int): seq<int>
  {
    if u !in edges && v !in edges then owners + [u] else owners
  }

  function OpenedEdges(edges: map<int, seq<int>>, u: int, v: int): (r: map<int, seq<int>>)
    ensures u in r || v in r
    ensures forall a, b :: Recorded(r, a, b) <==> Recorded(edges, a, b)
  {
    if u !in edges && v !in edges then edges[u := []] else edges
  }

  /** The guard of add_edge as written: u's record lacks v, or v's record lacks u. */
  predicate GuardAsWritten(edges: map<int, seq<int>>, u: int, v: int)
  {
    (u in edges && v !in edges[u]) || (v in edges && u !in edges[v])
  }

  /** The outcome of add_edge as written, on vertices and the opened records. */
  function AddOutcomeAsWritten(vertices: seq<int>, edges: map<int, seq<int>>, u: int, v: int): AddOutcome
  {
    if u !in vertices || v !in vertices then InvalidEndpoint
    else if GuardAsWritten(OpenedEdges(edges, u, v), u, v) then Added
    else AlreadyExists
  }

  /** The outcome of add_edge with the guard the warning 'Edge already exists' calls for: the
      edge is added exactly when both endpoints exist and it is recorded in neither direction. */
  function AddOutcomeOf(vertices: seq<int>, edges: map<int, seq<int>>, u: int, v: int): AddOutcome
  {
    if u !in vertices || v !in vertices then InvalidEndpoint
    else if Joined(edges, u, v) then AlreadyExists
    else Added
  }

  /** The key v appended to a record, unless the record already has it (an object key is set once). */
  function AddKey(keys: seq<int>, v: int): (r: seq<int>)
    ensures forall x :: x in r <==> x in keys || x == v
  {
    if v in keys then keys else keys + [v]
  }

  /** The record written by an added edge: in u's record when u has one, else in v's. */
  function Record(edges: map<int, seq<int>>, u: int, v: int): (r: map<int, seq<int>>)
    requires u in edges || v in edges
  {
    if u in edges then edges[u := AddKey(edges[u], v)] else edges[v := AddKey(edges[v], u)]
  }

  /** The records after add_edge(u, v) with the given outcome. */
  function RecordsAfter(edges: map<int, seq<int>>, u: int, v: int, outcome: AddOutcome): map<int, seq<int>>
  {
    if outcome == Added then Record(OpenedEdges(edges, u, v), u, v) else edges
  }

  function OwnersAfter(owners: seq<int>, edges: map<int, seq<int>>, u: int, v: int, outcome: AddOutcome): seq<int>
  {
    if outcome == Added then OpenedOwners(owners, edges, u, v) else owners
  }

  /** add_edge adds exactly when both endpoints exist and the edge is recorded in neither
      direction; it warns of a missing endpoint exactly when one is missing. */
  lemma AddOutcomeIff(vertices: seq<int>, edges: map<int, seq<int>>, u: int, v: int)
    ensures AddOutcomeOf(vertices, edges, u, v) == Added <==> u in vertices && v in vertices && !Joined(edges, u, v)
    ensures AddOutcomeOf(vertices, edges, u, v) == InvalidEndpoint <==> u !in vertices || v !in vertices
    ensures AddOutcomeOf(vertices, edges, u, v) == AlreadyExists <==> u in vertices && v in vertices && Joined(edges, u, v)
  {
  }

  /** An added edge is recorded once, in one direction, and no other record changes. */
  lemma RecordsAfterAdd(vertices: seq<int>, edges: map<int, seq<int>>, u: int, v: int)
    requires AddOutcomeOf(vertices, edges, u, v) == Added
    ensures var r := RecordsAfter(edges, u, v, Added);
            Joined(r, u, v)
            && (forall a, b :: Recorded(r, a, b) <==> Recorded(edges, a, b) || (Recorded(r, u, v) && a == u && b == v)
                                                                         || (Recorded(r, v, u) && a == v && b == u))
            && (Recorded(r, u, v) <==> !Recorded(r, v, u) || u == v)
  {
    var o := OpenedEdges(edges, u, v);
    var r := Record(o, u, v);
    if u in o {
      assert v in r[u];
    } else {
      assert u in r[v];
    }
  }

  /** The records change only when the edge is added, and then only by the edge {u, v}. */
  lemma JoinedAfter(vertices: seq<int>, edges: map<int, seq<int>>, u: int, v: int)
    ensures var o := AddOutcomeOf(vertices, edges, u, v);
            forall a, b :: Joined(RecordsAfter(edges, u, v, o), a, b) <==>
                             Joined(edges, a, b) || (o == Added && ((a == u && b == v) || (a == v && b == u)))
  {
    if AddOutcomeOf(vertices, edges, u, v) == Added {
      RecordsAfterAdd(vertices, edges, u, v);
    }
  }

  /** Adding an edge twice, in either direction, adds it once: the second call warns. */
  lemma AddTwice(vertices: seq<int>, edges: map<int, seq<int>>, u: int, v: int)
    requires AddOutcomeOf(vertices, edges, u, v) == Added
    ensures AddOutcomeOf(vertices, RecordsAfter(edges, u, v, Added), u, v) == AlreadyExists
    ensures AddOutcomeOf(vertices, RecordsAfter(edges, u, v, Added), v, u) == AlreadyExists
  {
    RecordsAfterAdd(vertices, edges, u, v);
  }

  /** Whenever the intended guard adds, so does the guard as written; it is only on an edge
      already recorded that the two differ. */
  lemma AsWrittenAddsWhenIntended(vertices: seq<int>, edges: map<int, seq<int>>, u: int, v: int)
    ensures AddOutcomeOf(vertices, edges, u, v) == Added ==> AddOutcomeAsWritten(vertices, edges, u, v) == Added
    ensures AddOutcomeOf(vertices, edges, u, v) == InvalidEndpoint <==> AddOutcomeAsWritten(vertices, edges, u, v) == InvalidEndpoint
  {
    var o := OpenedEdges(edges, u, v);
    if u in vertices && v in vertices && !Joined(edges, u, v) {
      if u in o {
        assert !Recorded(o, u, v);
      } else {
        assert !Recorded(o, v, u);
      }
    }
  }

  /** The guard as written lets a recorded edge through: after add_edge(1, 2), add_edge(3, 4) and
      add_edge(3, 1), the edge {1, 3} is recorded as (3, 1), yet add_edge(1, 3) adds it again,
      since 1's record lacks 3. The networks then hold two arc pairs between v1 and v3. */
  lemma AsWrittenAddsDuplicate()
    ensures var vertices := [1, 2, 3, 4];
            var edges := map[1 := [2], 3 := [4, 1]];
            Joined(edges, 1, 3)
            && AddOutcomeAsWritten(vertices, edges, 1, 3) == Added
            && AddOutcomeOf(vertices, edges, 1, 3) == AlreadyExists
  {
    var edges := map[1 := [2], 3 := [4, 1]];
    assert 1 in edges[3];
    assert 3 !in edges[1];
  }

  // ---------------------------------------------------------------------------------------
  // Shapes of the two networks

  predicate Distinct(s: seq<int>)
  {
    forall i, j :: 0 <= i < j < |s| ==> s[i] != s[j]
  }

  /** s without x (delete on an object key). */
  function Without(s: seq<int>, x: int): (r: seq<int>)
    ensures forall y :: y in r <==> y in s && y != x
    ensures Distinct(s) ==> Distinct(r)
  {
    if s == [] then []
    else
      var init := Without(s[..|s| - 1], x);
      var last := s[|s| - 1];
      assert forall y :: y in s <==> y in s[..|s| - 1] || y == last;
      assert Distinct(s) ==> Distinct(s[..|s| - 1]) && last !in s[..|s| - 1];
      init + (if last == x then [] else [last])
  }

  /** add_vertex on a network: empty lists for x. */
  function WithVertex(n: Net, x: Vertex): Net
  {
    Net(n.arena, n.outEdges[x := []], n.inEdges[x := []], n.flow)
  }

  /** remove_edge(a, b) on a network. */
  function Removed(n: Net, a: Vertex, b: Vertex): Net
  {
    PruneNet(n, DoomedLive(n, a, b))
  }

  /** In the vertex-split network every edge of positive finite capacity is some x_in -> x_out. */
  ghost predicate SplitShape(a: seq<Edge>)
  {
    forall h :: 0 <= h < |a| ==> (a[h].capacity.Finite? && a[h].capacity.units > 0 ==>
                                   a[h].source.In? && a[h].sink == Out(a[h].source.id))
  }

  lemma SplitShapeAdded(n: Net, x: Vertex, y: Vertex, w: Cap)
    requires x != y ==> x in n.outEdges && y in n.outEdges && x in n.inEdges && y in n.inEdges
    requires SplitShape(n.arena)
    requires w.Finite? && w.units > 0 ==> x.In? && y == Out(x.id)
    ensures SplitShape(AddedPair(n, x, y, w).arena)
  {
  }

  /** A saturated edge of positive capacity in the vertex-split network is the unit edge of a
      split vertex. */
  lemma SaturatedSplit(n: Net, h: nat, vis: set<Vertex>)
    requires InListsOk(n) && SplitShape(n.arena) && SaturatedIn(n, h, vis)
    ensures n.arena[h].source.In? && n.arena[h].sink == Out(n.arena[h].source.id)
    ensures n.arena[h].source in n.outEdges
  {
    assert InEntry(n, n.arena[h].sink, h);
  }

  /** add_edge(x, y, w) creates an edge from x to y and keeps every existing one. */
  lemma AddedPairLinks(n: Net, x: Vertex, y: Vertex, w: Cap, a: Vertex, b: Vertex)
    requires x != y && x in n.outEdges && y in n.outEdges && x in n.inEdges && y in n.inEdges
    ensures Linked(AddedPair(n, x, y, w), x, y)
    ensures Linked(n, a, b) ==> Linked(AddedPair(n, x, y, w), a, b)
  {
    var m := AddedPair(n, x, y, w);
    assert |n.arena| in m.outEdges[x] && m.arena[|n.arena|].sink == y;
    if Linked(n, a, b) {
      var h :| h in n.outEdges[a] && h < |n.arena| && n.arena[h].sink == b;
      assert h in m.outEdges[a] && m.arena[h].sink == b;
    }
  }

  /** The far end of an edge of the edge network has lists too. */
  lemma LinkedSinkListed(n: Net, x: Vertex, y: Vertex)
    requires OutListsOk(n) && n.outEdges.Keys == n.inEdges.Keys && Linked(n, x, y)
    ensures y in n.outEdges
  {
    var h :| h in n.outEdges[x] && h < |n.arena| && n.arena[h].sink == y;
    assert OutEntry(n, x, h);
  }

  /** add_edge(u, v) joins exactly u and v, and only when both are vertices; with the corrected
      guard a second call on the same edge changes nothing. */
  lemma JoinedStep(vertices: seq<int>, edges: map<int, seq<int>>, u: int, v: int)
    ensures var r := RecordsAfter(edges, u, v, AddOutcomeOf(vertices, edges, u, v));
            forall a, b :: Joined(r, a, b) <==>
                             Joined(edges, a, b) || (u in vertices && v in vertices && ((a == u && b == v) || (a == v && b == u)))
  {
    JoinedAfter(vertices, edges, u, v);
  }

  /** The edge {a, b} is one that add_edge(u, v) for every v of vs joins. */
  predicate JoinedFrom(vertices: seq<int>, u: int, vs: seq<int>, a: int, b: int)
  {
    u in vertices && ((a == u && b in vs && b in vertices) || (b == u && a in vs && a in vertices))
  }

  /** One more add_edge(u, vs[j]) extends the edges joined from u by vs[j]. */
  lemma JoinedFromStep(vertices: seq<int>, e0: map<int, seq<int>>, e: map<int, seq<int>>, e': map<int, seq<int>>,
                       u: int, vs: seq<int>, j: nat)
    requires j < |vs|
    requires forall a, b :: Joined(e, a, b) <==> Joined(e0, a, b) || JoinedFrom(vertices, u, vs[..j], a, b)
    requires e' == RecordsAfter(e, u, vs[j], AddOutcomeOf(vertices, e, u, vs[j]))
    ensures forall a, b :: Joined(e', a, b) <==> Joined(e0, a, b) || JoinedFrom(vertices, u, vs[..j + 1], a, b)
  {
    JoinedStep(vertices, e, u, vs[j]);
    assert forall x :: x in vs[..j + 1] <==> x in vs[..j] || x == vs[j] by {
      assert vs[..j + 1] == vs[..j] + [vs[j]];
    }
  }

  /** The edge {a, b} is among the records es[u] of some u of us: add_edge was called on it
      while the graph was copied or built from us. */
  ghost predicate JoinedBy(es: map<int, seq<int>>, us: seq<int>, a: int, b: int)
    decreases |us|
  {
    us != [] &&
    (JoinedBy(es, us[..|us| - 1], a, b) ||
     (var u := us[|us| - 1]; u in es && ((a == u && b in es[u]) || (b == u && a in es[u]))))
  }

  lemma {:induction false} JoinedByMembers(es: map<int, seq<int>>, us: seq<int>, a: int, b: int)
    ensures JoinedBy(es, us, a, b) <==> (a in us && a in es && b in es[a]) || (b in us && b in es && a in es[b])
    decreases |us|
  {
    if us != [] {
      var init := us[..|us| - 1];
      JoinedByMembers(es, init, a, b);
      assert forall x :: x in us <==> x in init || x == us[|us| - 1];
    }
  }

  // ---------------------------------------------------------------------------------------
  // The invariant of the graph, on values

  /** The edge network has lists exactly for the vertices, the vertex-split network exactly for
      their halves; the split network keeps its shape; each vertex is recorded once; the owners
      of edge records are exactly the keys of the records. */
  ghost predicate Shaped(n: Net, s: Net, vertices: seq<int>, owners: seq<int>, edges: map<int, seq<int>>)
  {
    (forall x {:trigger x in n.outEdges} :: x in n.outEdges <==> x.V? && x.id in vertices)
    && (forall x {:trigger x in s.outEdges} :: x in s.outEdges <==> !x.V? && x.id in vertices)
    && SplitShape(s.arena) && Distinct(vertices)
    && (forall u :: u in edges <==> u in owners)
  }

  lemma ShapedAddVertex(n: Net, s: Net, vertices: seq<int>, owners: seq<int>, edges: map<int, seq<int>>, id: int,
                        n': Net, s': Net, vertices': seq<int>)
    requires Shaped(n, s, vertices, owners, edges) && id !in vertices
    requires n' == WithVertex(n, V(id)) && vertices' == AddKey(vertices, id)
    requires s' == AddedPair(WithVertex(WithVertex(s, Out(id)), In(id)), In(id), Out(id), Finite(1))
    ensures Shaped(n', s', vertices', owners, edges)
  {
    var s2 := WithVertex(WithVertex(s, Out(id)), In(id));
    SplitShapeAdded(s2, In(id), Out(id), Finite(1));
  }

  lemma ShapedRemoveVertex(n: Net, s: Net, vertices: seq<int>, owners: seq<int>, edges: map<int, seq<int>>, id: int,
                           n': Net, s': Net, vertices': seq<int>)
    requires Shaped(n, s, vertices, owners, edges)
    requires n'.outEdges.Keys == n.outEdges.Keys - {V(id)} && s'.arena == s.arena
    requires s'.outEdges.Keys == s.outEdges.Keys - {Out(id)} - {In(id)}
    requires vertices' == Without(vertices, id)
    ensures Shaped(n', s', vertices', owners, edges)
  {
  }

  /** The shape depends only on which vertices have lists and on the split network's edges, not
      on the flow. */
  lemma ShapedSameKeys(n: Net, s: Net, vertices: seq<int>, owners: seq<int>, edges: map<int, seq<int>>,
                       n': Net, s': Net)
    requires Shaped(n, s, vertices, owners, edges)
    requires n'.outEdges.Keys == n.outEdges.Keys && s'.outEdges.Keys == s.outEdges.Keys && s'.arena == s.arena
    ensures Shaped(n', s', vertices, owners, edges)
  {
  }

  /** remove_vertex(x) keeps the edges and drops exactly x's lists. */
  lemma DetachShape(n: Net, x: Vertex)
    ensures Detach(n, x).arena == n.arena
    ensures Detach(n, x).outEdges.Keys == n.outEdges.Keys - {x}
  {
  }

  /** The arcs of a new edge keep the shape, whatever the records become. */
  lemma ShapedAddArcs(n: Net, s: Net, vertices: seq<int>, owners: seq<int>, edges: map<int, seq<int>>,
                      owners': seq<int>, edges': map<int, seq<int>>, u: int, v: int, n': Net, s': Net)
    requires Shaped(n, s, vertices, owners, edges) && u in vertices && v in vertices
    requires n.inEdges.Keys == n.outEdges.Keys && s.inEdges.Keys == s.outEdges.Keys
    requires forall x :: x in edges' <==> x in owners'
    requires n' == AddedPair(AddedPair(n, V(u), V(v), Finite(1)), V(v), V(u), Finite(1))
    requires s' == AddedPair(AddedPair(s, Out(u), In(v), Unbounded), Out(v), In(u), Unbounded)
    ensures Shaped(n', s', vertices, owners', edges')
  {
    var s1 := AddedPair(s, Out(u), In(v), Unbounded);
    SplitShapeAdded(s, Out(u), In(v), Unbounded);
    SplitShapeAdded(s1, Out(v), In(u), Unbounded);
  }

  lemma ShapedRemoveArcs(n: Net, s: Net, vertices: seq<int>, owners: seq<int>, edges: map<int, seq<int>>, u: int, v: int,
                         n': Net, s': Net)
    requires Shaped(n, s, vertices, owners, edges)
    requires n' == RemovedBoth(n, V(u), V(v)) && s' == Removed(Removed(s, Out(u), In(v)), Out(v), In(u))
    ensures Shaped(n', s', vertices, owners, edges)
  {
  }

  /** The cut edges of the vertex-split network are unit edges x_in -> x_out of graph vertices;
      none of them leaves a visited vertex. */
  lemma CutHalves(s': Net, vis: set<Vertex>, cut: seq<nat>, ids: seq<int>, vertices: seq<int>,
                  n: Net, s: Net, owners: seq<int>, edges: map<int, seq<int>>)
    requires Shaped(n, s, vertices, owners, edges) && InListsOk(s')
    requires s'.arena == s.arena && s'.outEdges.Keys == s.outEdges.Keys
    requires forall h: nat :: h in cut ==> SaturatedIn(s', h, vis) && s'.arena[h].source !in vis
    requires |ids| == |cut| && forall i :: 0 <= i < |cut| ==> cut[i] < |s'.arena| && ids[i] == s'.arena[cut[i]].source.id
    ensures forall i :: 0 <= i < |cut| ==>
              ids[i] in vertices && s'.arena[cut[i]].source == In(ids[i]) && s'.arena[cut[i]].sink == Out(ids[i])
              && In(ids[i]) !in vis && Out(ids[i]) in vis
  {
    forall i | 0 <= i < |cut|
      ensures ids[i] in vertices && s'.arena[cut[i]].source == In(ids[i]) && s'.arena[cut[i]].sink == Out(ids[i])
              && In(ids[i]) !in vis && Out(ids[i]) in vis
    {
      SaturatedSplit(s', cut[i], vis);
    }
  }

  /** Every handle of a cut of saturated edges names an edge of the arena. */
  lemma CutInArena(n: Net, vis: set<Vertex>, cut: seq<nat>)
    requires forall h: nat :: h in cut ==> SaturatedIn(n, h, vis)
    ensures forall i :: 0 <= i < |cut| ==> cut[i] < |n.arena|
  {
    forall i | 0 <= i < |cut|
      ensures cut[i] < |n.arena|
    {
      assert cut[i] in cut;
    }
  }

  /** The invariant of the graph object from its parts. */
  lemma ValidOf(g: UndirectedGraph)
    requires g.network != g.split && g.network.Valid() && g.split.Valid()
    requires Shaped(g.network.State(), g.split.State(), g.vertices, g.owners, g.edges)
    ensures g.Valid()
  {
  }

  // ---------------------------------------------------------------------------------------
  // The network updates of the graph, one network at a time

  /** add_edge(a, b, w) then add_edge(b, a, w): the two unit arc pairs of an undirected edge. */
  method AddBothWays(net: FlowNetwork, a: Vertex, b: Vertex, w: Cap)
    requires net.Valid() && a in net.outEdges && b in net.outEdges
    modifies net
    ensures net.Valid()
    ensures net.State() == AddedPair(AddedPair(old(net.State()), a, b, w), b, a, w)
    ensures a != b ==> Linked(net.State(), a, b) && Linked(net.State(), b, a)
    ensures net.visited == old(net.visited)
  {
    ghost var n0 := net.State();
    net.AddEdge(a, b, w);
    ghost var n1 := net.State();
    net.AddEdge(b, a, w);
    if a != b {
      AddedPairLinks(n0, a, b, w, a, b);
      AddedPairLinks(n1, b, a, w, a, b);
    }
  }

  /** add_edge(u_out, v_in, Infinity) then add_edge(v_out, u_in, Infinity). */
  method AddCrossing(net: FlowNetwork, u: int, v: int)
    requires net.Valid() && SplitShape(net.arena)
    requires Out(u) in net.outEdges && In(v) in net.outEdges && Out(v) in net.outEdges && In(u) in net.outEdges
    modifies net
    ensures net.Valid()
    ensures net.State() == AddedPair(AddedPair(old(net.State()), Out(u), In(v), Unbounded), Out(v), In(u), Unbounded)
    ensures net.visited == old(net.visited)
  {
    net.AddEdge(Out(u), In(v), Unbounded);
    net.AddEdge(Out(v), In(u), Unbounded);
  }

  /** add_vertex(v_out), add_vertex(v_in), add_edge(v_in, v_out, 1). */
  method AddHalves(net: FlowNetwork, id: int)
    modifies net
    ensures net.State() == AddedPair(WithVertex(WithVertex(old(net.State()), Out(id)), In(id)), In(id), Out(id), Finite(1))
    ensures old(net.Valid()) && Out(id) !in old(net.outEdges) && In(id) !in old(net.outEdges) ==> net.Valid()
    ensures net.visited == old(net.visited)
  {
    net.AddVertex(Out(id));
    net.AddVertex(In(id));
    net.AddEdge(In(id), Out(id), Finite(1));
  }

  /** remove_vertex(v_out), remove_vertex(v_in). */
  method RemoveHalves(net: FlowNetwork, id: int)
    requires net.Valid() && Out(id) in net.outEdges && In(id) in net.outEdges
    modifies net
    ensures net.Valid()
    ensures net.State() == Detach(Detach(old(net.State()), Out(id)), In(id))
    ensures net.visited == old(net.visited)
  {
    net.RemoveVertex(Out(id));
    net.RemoveVertex(In(id));
  }

  /** remove_edge(a, b) then remove_edge(b, a). */
  method RemoveBothWays(net: FlowNetwork, a: Vertex, b: Vertex)
    requires net.Valid() && a in net.outEdges && b in net.outEdges
    modifies net
    ensures net.Valid()
    ensures net.State() == RemovedBoth(old(net.State()), a, b)
    ensures !Linked(net.State(), a, b) && !Linked(net.State(), b, a)
    ensures net.visited == old(net.visited)
  {
    RemovedBothUnlinked(net.State(), a, b);
    net.RemoveEdge(a, b);
    net.RemoveEdge(b, a);
  }

  /** remove_edge(u_out, v_in) then remove_edge(v_out, u_in). */
  method RemoveCrossing(net: FlowNetwork, u: int, v: int)
    requires net.Valid()
    requires Out(u) in net.outEdges && In(v) in net.outEdges && Out(v) in net.outEdges && In(u) in net.outEdges
    modifies net
    ensures net.Valid()
    ensures net.State() == Removed(Removed(old(net.State()), Out(u), In(v)), Out(v), In(u))
    ensures net.visited == old(net.visited)
  {
    net.RemoveEdge(Out(u), In(v));
    net.RemoveEdge(Out(v), In(u));
  }

  // ---------------------------------------------------------------------------------------
  // The graph object

  class UndirectedGraph {
    /** flow_network: a pair of unit arcs per undirected edge. */
    var network: FlowNetwork
    /** transformed_flow_network: the vertex-split network. */
    var split: FlowNetwork
    /** The ids of the vertices, in the order they were added. */
    var vertices: seq<int>
    /** The owners of edge records (the keys of edges), in the order they were opened. */
    var owners: seq<int>
    /** edges[u]: the ids v of the edges recorded as (u, v), in the order they were added. */
    var edges: map<int, seq<int>>

    ghost predicate Valid()
      reads this, network, split
    {
      network != split && network.Valid() && split.Valid()
      && Shaped(network.State(), split.State(), vertices, owners, edges)
    }

    /** A graph with no vertices. */
    constructor ()
      ensures Valid() && fresh(network) && fresh(split)
      ensures vertices == [] && owners == [] && edges == map[]
      ensures network.State() == Net([], map[], map[], map[]) && split.State() == Net([], map[], map[], map[])
    {
      network := new FlowNetwork();
      split := new FlowNetwork();
      vertices, owners, edges := [], [], map[];
    }

    /** UndirectedGraph(graph): every vertex of vs is added, then add_edge(v, w) for each v of vs
        and each w of es[v]. The graph holds exactly the listed edges between listed vertices. */
    constructor FromGraph(vs: seq<int>, es: map<int, seq<int>>)
      requires Distinct(vs) && forall v :: v in vs ==> v in es
      ensures Valid() && fresh(network) && fresh(split) && vertices == vs
      ensures forall a, b :: Joined(edges, a, b) <==>
                               a in vs && b in vs && ((a in es && b in es[a]) || (b in es && a in es[b]))
    {
      network := new FlowNetwork();
      split := new FlowNetwork();
      vertices, owners, edges := [], [], map[];
      new;
      AddVertices(vs);
      AddEdgesOfAll(vs, es);
      forall a, b
        ensures JoinedBy(es, vs, a, b) <==> (a in vs && a in es && b in es[a]) || (b in vs && b in es && a in es[b])
      {
        JoinedByMembers(es, vs, a, b);
      }
    }

    /** add_vertex(v): v is recorded (once), gets lists in the edge network, and is split into
        v_out and v_in joined by v_in -> v_out of capacity 1. Adding a vertex that exists empties
        its lists while other lists still hold its edges, which the invariant does not allow. */
    method AddVertex(id: int)
      requires Valid()
      modifies this, network, split
      ensures network == old(network) && split == old(split)
      ensures vertices == AddKey(old(vertices), id) && owners == old(owners) && edges == old(edges)
      ensures network.State() == WithVertex(old(network.State()), V(id))
      ensures split.State() == AddedPair(WithVertex(WithVertex(old(split.State()), Out(id)), In(id)), In(id), Out(id), Finite(1))
      ensures network.visited == old(network.visited) && split.visited == old(split.visited)
      ensures id !in old(vertices) ==> Valid()
    {
      ghost var n, s := network.State(), split.State();
      ghost var vs := vertices;
      vertices := AddKey(vertices, id);
      network.AddVertex(V(id));
      AddHalves(split, id);
      if id !in vs {
        ShapedAddVertex(n, s, vs, owners, edges, id, network.State(), split.State(), vertices);
        ValidOf(this);
      }
    }

    /** remove_vertex(v): v is forgotten and removed from both networks with all its edges. The
        edge records are left as they are. */
    method RemoveVertex(id: int)
      requires Valid() && id in vertices
      modifies this, network, split
      ensures network == old(network) && split == old(split) && Valid()
      ensures vertices == Without(old(vertices), id) && owners == old(owners) && edges == old(edges)
      ensures network.State() == Detach(old(network.State()), V(id))
      ensures split.State() == Detach(Detach(old(split.State()), Out(id)), In(id))
      ensures network.visited == old(network.visited) && split.visited == old(split.visited)
    {
      ghost var n, s := network.State(), split.State();
      ghost var vs := vertices;
      network.RemoveVertex(V(id));
      RemoveHalves(split, id);
      vertices := Without(vertices, id);
      DetachShape(n, V(id));
      DetachShape(s, Out(id));
      DetachShape(Detach(s, Out(id)), In(id));
      ShapedRemoveVertex(n, s, vs, owners, edges, id, network.State(), split.State(), vertices);
      ValidOf(this);
    }

    /** add_edge(u, v), with the duplicate test the warning 'Edge already exists' describes (see
        AsWrittenAddsDuplicate for the test as written): when both endpoints exist and the edge
        is recorded in neither direction, it is recorded once, u -> v and v -> u of capacity 1
        join the edge network, and u_out -> v_in and v_out -> u_in of unbounded capacity join
        the vertex-split network; otherwise nothing changes. */
    method AddEdge(u: int, v: int) returns (outcome: AddOutcome)
      requires Valid()
      modifies this, network, split
      ensures network == old(network) && split == old(split) && Valid()
      ensures outcome == AddOutcomeOf(old(vertices), old(edges), u, v) && vertices == old(vertices)
      ensures edges == RecordsAfter(old(edges), u, v, outcome)
      ensures owners == OwnersAfter(old(owners), old(edges), u, v, outcome)
      ensures outcome == Added ==>
                network.State() == AddedPair(AddedPair(old(network.State()), V(u), V(v), Finite(1)), V(v), V(u), Finite(1))
                && split.State() == AddedPair(AddedPair(old(split.State()), Out(u), In(v), Unbounded), Out(v), In(u), Unbounded)
      ensures outcome != Added ==> network.State() == old(network.State()) && split.State() == old(split.State())
      ensures outcome == Added && u != v ==>
                Linked(network.State(), V(u), V(v)) && Linked(network.State(), V(v), V(u))
      ensures network.visited == old(network.visited) && split.visited == old(split.visited)
    {
      if !(u in vertices && v in vertices) {
        return InvalidEndpoint;
      }
      ghost var n, s := network.State(), split.State();
      ghost var os, es := owners, edges;
      OpenRecord(u, v);
      if Joined(edges, u, v) {
        return AlreadyExists;
      }
      AddArcs(u, v);
      AddRecord(u, v);
      ShapedAddArcs(n, s, vertices, os, es, owners, edges, u, v, network.State(), split.State());
      ValidOf(this);
      outcome := Added;
    }

    /** The first step of add_edge(u, v): a record for u is opened when neither u nor v has one. */
    method OpenRecord(u: int, v: int)
      modifies this`edges, this`owners
      ensures edges == OpenedEdges(old(edges), u, v) && owners == OpenedOwners(old(owners), old(edges), u, v)
    {
      if u !in edges && v !in edges {
        edges := edges[u := []];
        owners := owners + [u];
      }
    }

    /** v is added to u's record if u has one, otherwise u to v's. */
    method AddRecord(u: int, v: int)
      requires u in edges || v in edges
      modifies this`edges
      ensures edges == Record(old(edges), u, v)
    {
      if u in edges {
        edges := edges[u := AddKey(edges[u], v)];
      } else {
        edges := edges[v := AddKey(edges[v], u)];
      }
    }

    /** The network part of add_edge(u, v), once both endpoints are known to exist. */
    method AddArcs(u: int, v: int)
      requires network != split && network.Valid() && split.Valid() && SplitShape(split.arena)
      requires V(u) in network.outEdges && V(v) in network.outEdges
      requires Out(u) in split.outEdges && In(v) in split.outEdges && Out(v) in split.outEdges && In(u) in split.outEdges
      modifies network, split
      ensures network.Valid() && split.Valid()
      ensures network.State() == AddedPair(AddedPair(old(network.State()), V(u), V(v), Finite(1)), V(v), V(u), Finite(1))
      ensures split.State() == AddedPair(AddedPair(old(split.State()), Out(u), In(v), Unbounded), Out(v), In(u), Unbounded)
      ensures u != v ==> Linked(network.State(), V(u), V(v)) && Linked(network.State(), V(v), V(u))
      ensures network.visited == old(network.visited) && split.visited == old(split.visited)
    {
      AddBothWays(network, V(u), V(v), Finite(1));
      AddCrossing(split, u, v);
    }

    /** adjacent(u, v): whether the edge network has an edge from u to v. */
    method Adjacent(u: int, v: int) returns (b: bool)
      requires Valid() && u in vertices
      ensures b <==> Linked(network.State(), V(u), V(v))
    {
      b := network.HasEdge(V(u), V(v));
    }

    /** remove_edge(u, v): when u and v are adjacent, both arc pairs go from the edge network and
        both unbounded pairs from the vertex-split network; the edge records are left as they
        are. Afterwards u and v are adjacent in neither direction. */
    method RemoveEdge(u: int, v: int)
      requires Valid() && u in vertices
      modifies network, split
      ensures Valid()
      ensures old(Linked(network.State(), V(u), V(v))) ==>
                network.State() == RemovedBoth(old(network.State()), V(u), V(v))
                && split.State() == Removed(Removed(old(split.State()), Out(u), In(v)), Out(v), In(u))
      ensures !old(Linked(network.State(), V(u), V(v))) ==>
                network.State() == old(network.State()) && split.State() == old(split.State())
      ensures !Linked(network.State(), V(u), V(v))
      ensures old(Linked(network.State(), V(u), V(v))) ==> !Linked(network.State(), V(v), V(u))
      ensures network.visited == old(network.visited) && split.visited == old(split.visited)
    {
      var adjacent := Adjacent(u, v);
      if adjacent {
        Disconnect(u, v);
      }
    }

    /** The removal proper, once u and v are known to be adjacent. */
    method Disconnect(u: int, v: int)
      requires Valid() && u in vertices && Linked(network.State(), V(u), V(v))
      modifies network, split
      ensures Valid()
      ensures network.State() == RemovedBoth(old(network.State()), V(u), V(v))
      ensures split.State() == Removed(Removed(old(split.State()), Out(u), In(v)), Out(v), In(u))
      ensures !Linked(network.State(), V(u), V(v)) && !Linked(network.State(), V(v), V(u))
      ensures network.visited == old(network.visited) && split.visited == old(split.visited)
    {
      ghost var n, s := network.State(), split.State();
      LinkedSinkListed(n, V(u), V(v));
      RemoveArcs(u, v);
      ShapedRemoveArcs(n, s, vertices, owners, edges, u, v, network.State(), split.State());
      ValidOf(this);
    }

    /** The network part of remove_edge(u, v), once both endpoints are known to exist. */
    method RemoveArcs(u: int, v: int)
      requires network != split && network.Valid() && split.Valid()
      requires V(u) in network.outEdges && V(v) in network.outEdges
      requires Out(u) in split.outEdges && In(v) in split.outEdges && Out(v) in split.outEdges && In(u) in split.outEdges
      modifies network, split
      ensures network.Valid() && split.Valid()
      ensures network.State() == RemovedBoth(old(network.State()), V(u), V(v))
      ensures !Linked(network.State(), V(u), V(v)) && !Linked(network.State(), V(v), V(u))
      ensures split.State() == Removed(Removed(old(split.State()), Out(u), In(v)), Out(v), In(u))
      ensures network.visited == old(network.visited) && split.visited == old(split.visited)
    {
      RemoveBothWays(network, V(u), V(v));
      RemoveCrossing(split, u, v);
    }

    /** min_cut(source, sink): runs the edge network's min_cut and translates each cut edge to
        the ids of its endpoints. The cut is every saturated edge from an unvisited vertex into
        the part visited back from the sink. */
    method MinCut(source: int, sink: int, fuel: nat) returns (outcome: FlowOutcome, pairs: seq<(int, int)>, cut: seq<nat>)
      requires Valid() && source in vertices && sink in vertices
      modifies network
      ensures Valid()
      ensures network.arena == old(network.arena) && network.outEdges == old(network.outEdges)
      ensures network.inEdges == old(network.inEdges) && network.flow.Keys == old(network.flow.Keys)
      ensures |pairs| == |cut| && NoRepeats(cut)
      ensures forall i :: 0 <= i < |cut| ==>
                cut[i] < |network.arena|
                && pairs[i] == (network.arena[cut[i]].source.id, network.arena[cut[i]].sink.id)
      ensures forall h: nat :: h in cut <==> SaturatedIn(network.State(), h, network.visited)
                                             && network.arena[h].source !in network.visited
      ensures V(sink) in network.visited && BackClosed(network.State(), network.visited)
      ensures forall x :: x in network.visited <==> Reaches(network.State(), x, V(sink))
      ensures outcome.MaxFlowValue? ==> V(source) !in network.visited
      ensures outcome.MaxFlowValue? ==> source != sink && Conserved(network.State(), V(source), V(sink), outcome.value)
      ensures outcome.MaxFlowValue? ==>
                forall hs :: Walk(network.State(), V(source), V(sink), hs) ==> exists i :: 0 <= i < |hs| && hs[i] in cut
    {
      ghost var n, s := network.State(), split.State();
      outcome, cut := network.MinCut(V(source), V(sink), fuel);
      CutInArena(network.State(), network.visited, cut);
      pairs := EndpointIds(network.arena, cut);
      ShapedSameKeys(n, s, vertices, owners, edges, network.State(), split.State());
      ValidOf(this);
    }

    /** min_vertex_cut(source, sink): None (the empty answer) when the two are adjacent;
        otherwise the vertex-split network's min_cut from source_out to sink_in, each cut edge
        read as the id of its source half. Every such edge is some x_in -> x_out, x a vertex of
        the graph other than sink (and other than source when the flow was found). */
    method MinVertexCut(source: int, sink: int, fuel: nat) returns (outcome: Option<FlowOutcome>, ids: seq<int>, cut: seq<nat>)
      requires Valid() && source in vertices && sink in vertices
      modifies split
      ensures Valid()
      ensures split.arena == old(split.arena) && split.outEdges == old(split.outEdges)
      ensures split.inEdges == old(split.inEdges) && split.flow.Keys == old(split.flow.Keys)
      ensures outcome.None? <==> Linked(network.State(), V(source), V(sink))
      ensures outcome.None? ==> ids == [] && cut == [] && split.State() == old(split.State())
      ensures |ids| == |cut| && NoRepeats(cut)
      ensures forall i :: 0 <= i < |cut| ==>
                cut[i] < |split.arena| && ids[i] in vertices
                && split.arena[cut[i]].source == In(ids[i]) && split.arena[cut[i]].sink == Out(ids[i])
      ensures outcome.Some? ==>
                (forall h: nat :: h in cut <==> SaturatedIn(split.State(), h, split.visited)
                                                && split.arena[h].source !in split.visited)
                && In(sink) in split.visited && BackClosed(split.State(), split.visited)
                && sink !in ids
      ensures outcome.Some? ==> forall x :: x in split.visited <==> Reaches(split.State(), x, In(sink))
      ensures outcome.Some? && outcome.value.MaxFlowValue? ==> Out(source) !in split.visited && source !in ids
      ensures outcome.Some? && outcome.value.MaxFlowValue? ==> Conserved(split.State(), Out(source), In(sink), outcome.value.value)
      ensures outcome.Some? && outcome.value.MaxFlowValue? ==>
                forall hs :: Walk(split.State(), Out(source), In(sink), hs) ==> exists i :: 0 <= i < |hs| && hs[i] in cut
    {
      var adjacent := Adjacent(source, sink);
      if adjacent {
        return None, [], [];
      }
      ghost var n, s := network.State(), split.State();
      var result;
      result, cut := split.MinCut(Out(source), In(sink), fuel);
      outcome := Some(result);
      CutInArena(split.State(), split.visited, cut);
      ids := CutVertexIds(split.arena, cut);
      CutHalves(split.State(), split.visited, cut, ids, vertices, n, s, owners, edges);
      ShapedSameKeys(n, s, vertices, owners, edges, network.State(), split.State());
      ValidOf(this);
    }

    /** add_vertex of a vertex not yet in the graph: it is appended to the vertex list, and the
        invariant is kept. */
    method AddNewVertex(id: int)
      requires Valid() && id !in vertices
      modifies this, network, split
      ensures Valid() && network == old(network) && split == old(split)
      ensures vertices == old(vertices) + [id] && owners == old(owners) && edges == old(edges)
    {
      AddVertex(id);
    }

    /** add_vertex for each of vs in turn (the vertex loops of the constructor and of clone). */
    method AddVertices(vs: seq<int>)
      requires Valid() && Distinct(vs) && forall v :: v in vs ==> v !in vertices
      modifies this, network, split
      ensures Valid() && network == old(network) && split == old(split)
      ensures vertices == old(vertices) + vs && owners == old(owners) && edges == old(edges)
    {
      for i := 0 to |vs|
        invariant Valid() && network == old(network) && split == old(split)
        invariant vertices == old(vertices) + vs[..i] && owners == old(owners) && edges == old(edges)
      {
        assert vs[i] !in vs[..i];
        AddNewVertex(vs[i]);
        assert vs[..i + 1] == vs[..i] + [vs[i]];
      }
      assert vs[..|vs|] == vs;
    }

    /** add_edge(u, v) for each v of vs in turn (the inner edge loops of the constructor and of
        clone): the edges {u, v} between vertices are added, and nothing else. */
    method AddEdgesFrom(u: int, vs: seq<int>)
      requires Valid()
      modifies this, network, split
      ensures Valid() && network == old(network) && split == old(split) && vertices == old(vertices)
      ensures forall a, b :: Joined(edges, a, b) <==> Joined(old(edges), a, b) || JoinedFrom(vertices, u, vs, a, b)
    {
      for j := 0 to |vs|
        invariant Valid() && network == old(network) && split == old(split) && vertices == old(vertices)
        invariant forall a, b :: Joined(edges, a, b) <==> Joined(old(edges), a, b) || JoinedFrom(vertices, u, vs[..j], a, b)
      {
        ghost var e := edges;
        var _ := AddEdge(u, vs[j]);
        JoinedFromStep(vertices, old(edges), e, edges, u, vs, j);
      }
      assert vs[..|vs|] == vs;
    }

    /** add_edge(u, v) for each u of us and each v of es[u] (the edge loops of the constructor and
        of clone). */
    method AddEdgesOfAll(us: seq<int>, es: map<int, seq<int>>)
      requires Valid() && forall u :: u in us ==> u in es
      modifies this, network, split
      ensures Valid() && network == old(network) && split == old(split) && vertices == old(vertices)
      ensures forall a, b :: Joined(edges, a, b) <==>
                               Joined(old(edges), a, b) || (a in vertices && b in vertices && JoinedBy(es, us, a, b))
    {
      for i := 0 to |us|
        invariant Valid() && network == old(network) && split == old(split) && vertices == old(vertices)
        invariant forall a, b :: Joined(edges, a, b) <==>
                                   Joined(old(edges), a, b) || (a in vertices && b in vertices && JoinedBy(es, us[..i], a, b))
      {
        assert us[i] in us;
        AddEdgesFrom(us[i], es[us[i]]);
        assert us[..i + 1][..i] == us[..i];
      }
      assert us[..|us|] == us;
    }

    /** clone(): a new graph with fresh networks, given every vertex in order and then every
        recorded edge in order. It has the same vertices and records exactly the recorded edges
        between them; the original is not changed. */
    method Clone() returns (g: UndirectedGraph)
      requires Valid()
      ensures fresh(g) && fresh(g.network) && fresh(g.split) && g.Valid()
      ensures g.vertices == vertices
      ensures forall a, b :: Joined(g.edges, a, b) <==> a in vertices && b in vertices && Joined(edges, a, b)
    {
      g := new UndirectedGraph();
      g.AddVertices(vertices);
      g.AddEdgesOfAll(owners, edges);
      forall a, b
        ensures JoinedBy(edges, owners, a, b) <==> Joined(edges, a, b)
      {
        JoinedByMembers(edges, owners, a, b);
      }
    }
  }
}

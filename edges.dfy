/** Edges and augmenting paths (docs/mincut.js, lines 1-47). */
module Edges {

  /** A vertex of a flow network. The edge network of the undirected graph uses V(id) for the
      label 'v' + id; the vertex-split network uses In(id) and Out(id) for 'v' + id + '_in'
      and 'v' + id + '_out' (see module Labels). */
  datatype Vertex = V(id: int) | In(id: int) | Out(id: int)

  /** An edge capacity: a non-negative integer, or unbounded (JavaScript's Infinity). */
  datatype Cap = Finite(units: nat) | Unbounded

  /** A residual capacity: capacity minus flow, infinite on an unbounded edge. */
  datatype Amount = Fin(value: int) | Inf

  /** `capacity > 0` */
  predicate IsPositive(c: Cap)
  {
    c.Unbounded? || c.units > 0
  }

  /** `residual > 0` */
  predicate Exceeds0(a: Amount)
  {
    a.Inf? || a.value > 0
  }

  predicate AtMost(a: Amount, b: Amount)
  {
    b.Inf? || (a.Fin? && a.value <= b.value)
  }

  function Min(a: Amount, b: Amount): (m: Amount)
    ensures AtMost(m, a) && AtMost(m, b)
    ensures m == a || m == b
  {
    if AtMost(a, b) then a else b
  }

  /** `capacity - flow`: the flow can grow exactly when this is positive, and it is within the
      capacity exactly when this is not negative. */
  function ResidualOf(c: Cap, flow: int): (r: Amount)
    ensures Exceeds0(r) <==> c.Unbounded? || flow < c.units
    ensures AtMost(Fin(0), r) <==> c.Unbounded? || flow <= c.units
    ensures forall b: int :: AtMost(Fin(b), r) <==> c.Unbounded? || flow + b <= c.units
  {
    match c
    case Finite(n) => Fin(n - flow)
    case Unbounded => Inf
  }

  /** An arc: its endpoints, its capacity, and the handle of its reverse arc (field redge).
      The capacity never changes; the flow lives in the network's flow map. */
  datatype Edge = Edge(source: Vertex, sink: Vertex, capacity: Cap, redge: nat)

  /** One entry [edge, residual] of an augmenting path: the edge's handle and the residual
      capacity it had when the search took it. */
  datatype Step = Step(edge: nat, residual: Amount)

  /** The number of entries of steps equal to s (the $.grep that in_path counts). */
  function CountOf(steps: seq<Step>, s: Step): (n: nat)
    ensures n <= |steps|
    ensures n > 0 <==> exists i :: 0 <= i < |steps| && steps[i] == s
  {
    if steps == [] then 0
    else (if steps[0] == s then 1 else 0) + CountOf(steps[1..], s)
  }

  /** Math.min over the recorded residuals; Infinity on an empty path. */
  function MinResidual(steps: seq<Step>): (m: Amount)
    ensures forall i :: 0 <= i < |steps| ==> AtMost(m, steps[i].residual)
    ensures steps == [] ==> m == Inf
    ensures steps != [] ==> exists i :: 0 <= i < |steps| && m == steps[i].residual
  {
    if steps == [] then Inf
    else
      var rest := MinResidual(steps[1..]);
      assert forall i :: 1 <= i < |steps| ==> steps[i] == steps[1..][i - 1];
      Min(steps[0].residual, rest)
  }

  /** An augmenting path under construction: an ordered list of (edge, residual) entries. */
  class Path {
    var steps: seq<Step>

    constructor ()
      ensures steps == []
    {
      steps := [];
    }

    /** Appends the entry [edge, residual]. */
    method AddEdge(edge: nat, residual: Amount)
      modifies this
      ensures steps == old(steps) + [Step(edge, residual)]
    {
      steps := steps + [Step(edge, residual)];
    }

    /** Whether the exact pair (edge, residual) is already an entry. */
    function InPath(edge: nat, residual: Amount): (b: bool)
      reads this
      ensures b <==> exists i :: 0 <= i < |steps| && steps[i] == Step(edge, residual)
    {
      0 < CountOf(steps, Step(edge, residual))
    }

    /** The bottleneck: the least recorded residual, Inf on an empty path. */
    function GetMinFlow(): (m: Amount)
      reads this
      ensures forall i :: 0 <= i < |steps| ==> AtMost(m, steps[i].residual)
      ensures steps != [] ==> exists i :: 0 <= i < |steps| && m == steps[i].residual
      ensures steps == [] ==> m == Inf
    {
      MinResidual(steps)
    }

    /** The number of entries; every index below it names an entry that in_path finds. */
    function Length(): (r: nat)
      reads this
      ensures r == |steps|
      ensures forall i :: 0 <= i < r ==> InPath(steps[i].edge, steps[i].residual)
    {
      |steps|
    }

    /** The edge of entry index, which in_path finds with that entry's residual. */
    function GetEdge(index: nat): (e: nat)
      reads this
      requires index < |steps|
      ensures InPath(e, steps[index].residual)
    {
      steps[index].edge
    }

    /** The residual of entry index: in_path finds it with that entry's edge, and the
        bottleneck is at most it. */
    function GetResidual(index: nat): (r: Amount)
      reads this
      requires index < |steps|
      ensures InPath(steps[index].edge, r)
      ensures AtMost(GetMinFlow(), r)
    {
      steps[index].residual
    }

    /** A new path holding the same entries, independent of this one. */
    method Copy() returns (p: Path)
      ensures fresh(p) && p.steps == steps
    {
      p := new Path();
      var i := 0;
      while i < Length()
        invariant 0 <= i <= |steps|
        invariant fresh(p) && p.steps == steps[..i]
      {
        p.AddEdge(GetEdge(i), GetResidual(i));
        i := i + 1;
      }
    }
  }
}

/** The residual graph of day 25 (day25/src/graph.rs): edge insertion, the breadth-first
    augmenting-path search, the Ford-Fulkerson loop, and the depth-first search behind the
    minimum cut and the partition. */
module Day25Graph {
  import opened Wrappers

  type Vertex = string

  /** The modulus of the `as usize` cast, and `usize::MAX`. */
  const U64: int := 0x1_0000_0000_0000_0000
  const UsizeMax: int := U64 - 1

  /** A directed edge: unit capacity in practice, and a signed flow. */
  datatype Edge = Edge(capacity: nat, flow: int) {

    /** `(capacity as i64 - flow) as usize`: the difference, wrapped into 0 .. 2^64. */
    function ResidualCapacity(): (r: nat)
      ensures r < U64
      ensures 0 <= capacity - flow < U64 ==> r == capacity - flow
      ensures -U64 <= capacity - flow < 0 ==> r == capacity - flow + U64
    {
      (capacity - flow) % U64
    }

    function AddFlow(amount: int): Edge {
      Edge(capacity, flow + amount)
    }
  }

  /** `Edge::new`. */
  function NewEdge(): (e: Edge)
    ensures e.capacity == 1 && e.flow == 0
    ensures e.ResidualCapacity() == 1
  {
    Edge(1, 0)
  }

  /** The graph's `mapping`: origin to destination to edge. */
  type Mapping = map<Vertex, map<Vertex, Edge>>

  /** A path and its bottleneck, as `find_path` returns them. */
  datatype Path = Path(vertices: seq<Vertex>, maxFlow: nat)

  predicate HasEdge(m: Mapping, u: Vertex, v: Vertex) {
    u in m && v in m[u]
  }

  /** The edge u->v exists and the searches may use it. */
  predicate Positive(m: Mapping, u: Vertex, v: Vertex) {
    HasEdge(m, u, v) && m[u][v].ResidualCapacity() > 0
  }

  // ---------------------------------------------------------------------------
  // Invariants of a residual graph

  /** Every edge has its reverse: `add_edge` inserts both. */
  ghost predicate Symmetric(m: Mapping) {
    forall u, v :: HasEdge(m, u, v) ==> HasEdge(m, v, u)
  }

  ghost predicate UnitCapacity(m: Mapping) {
    forall u, v :: HasEdge(m, u, v) ==> m[u][v].capacity == 1
  }

  /** flow(u, v) == -flow(v, u). */
  ghost predicate SkewSymmetric(m: Mapping)
    requires Symmetric(m)
  {
    forall u, v :: HasEdge(m, u, v) ==> m[v][u].flow == -m[u][v].flow
  }

  /** No residual capacity is negative. */
  ghost predicate Feasible(m: Mapping) {
    forall u, v :: HasEdge(m, u, v) ==> m[u][v].flow <= m[u][v].capacity
  }

  ghost predicate ResidualGraph(m: Mapping) {
    Symmetric(m) && UnitCapacity(m) && SkewSymmetric(m) && Feasible(m)
  }

  /** Same vertices and same edge keys. */
  ghost predicate SameKeys(m: Mapping, m': Mapping) {
    && (forall u :: u in m' <==> u in m)
    && (forall u, v :: HasEdge(m', u, v) <==> HasEdge(m, u, v))
  }

  /** Same vertices, same edge keys and same capacities: only flows may differ. */
  ghost predicate SameShape(m: Mapping, m': Mapping) {
    && SameKeys(m, m')
    && (forall u, v :: HasEdge(m, u, v) ==> HasEdge(m', u, v) && m'[u][v].capacity == m[u][v].capacity)
  }

  /** In a residual graph every residual capacity lies in 0 .. 2, so the cast is exact. */
  lemma ResidualInRange(m: Mapping, u: Vertex, v: Vertex)
    requires ResidualGraph(m) && HasEdge(m, u, v)
    ensures 0 <= m[u][v].capacity - m[u][v].flow <= 2
    ensures m[u][v].ResidualCapacity() == m[u][v].capacity - m[u][v].flow
  {
    assert HasEdge(m, v, u);
    assert m[v][u].flow <= 1;
  }

  // ---------------------------------------------------------------------------
  // Paths and reachability over edges of positive residual capacity

  ghost predicate IsPath(m: Mapping, p: seq<Vertex>) {
    |p| >= 1 && forall i :: 0 <= i < |p| - 1 ==> Positive(m, p[i], p[i + 1])
  }

  ghost predicate Reachable(m: Mapping, s: Vertex, t: Vertex) {
    exists p :: IsPath(m, p) && p[0] == s && p[|p| - 1] == t
  }

  predicate Distinct(p: seq<Vertex>) {
    forall i, j :: 0 <= i < j < |p| ==> p[i] != p[j]
  }

  function Elems(s: seq<Vertex>): set<Vertex> {
    set x | x in s
  }

  /** No positive edge leads from `s` out of `t`. */
  ghost predicate ClosedWithin(m: Mapping, s: set<Vertex>, t: set<Vertex>) {
    forall u, v :: u in s && Positive(m, u, v) ==> v in t
  }

  ghost predicate AllReachable(m: Mapping, a: Vertex, s: set<Vertex>) {
    forall x :: x in s ==> Reachable(m, a, x)
  }

  lemma {:induction false} PathStaysInClosed(m: Mapping, s: set<Vertex>, p: seq<Vertex>)
    requires ClosedWithin(m, s, s) && IsPath(m, p) && p[0] in s
    ensures p[|p| - 1] in s
    decreases |p|
  {
    if |p| > 1 {
      assert Positive(m, p[0], p[1]);
      PathStaysInClosed(m, s, p[1..]);
    }
  }

  /** A closed set holding the start and not the target shows there is no path. */
  lemma ClosedSeparates(m: Mapping, s: set<Vertex>, a: Vertex, b: Vertex)
    requires ClosedWithin(m, s, s) && a in s && b !in s
    ensures !Reachable(m, a, b)
  {
    forall p | IsPath(m, p) && p[0] == a
      ensures p[|p| - 1] != b
    {
      PathStaysInClosed(m, s, p);
    }
  }

  /** A closed set of vertices reachable from `a`, holding `a`, is exactly what `a` reaches. */
  lemma ClosedReachableSet(m: Mapping, a: Vertex, s: set<Vertex>)
    requires a in s && ClosedWithin(m, s, s) && AllReachable(m, a, s)
    ensures forall x :: x in s <==> Reachable(m, a, x)
  {
    forall x | Reachable(m, a, x)
      ensures x in s
    {
      var p :| IsPath(m, p) && p[0] == a && p[|p| - 1] == x;
      PathStaysInClosed(m, s, p);
    }
  }

  lemma ReachableStep(m: Mapping, a: Vertex, b: Vertex, c: Vertex)
    requires Positive(m, a, b) && Reachable(m, b, c)
    ensures Reachable(m, a, c)
  {
    var p :| IsPath(m, p) && p[0] == b && p[|p| - 1] == c;
    var q := [a] + p;
    assert forall i :: 1 <= i < |q| - 1 ==> q[i] == p[i - 1] && q[i + 1] == p[i];
    assert IsPath(m, q);
  }

  lemma PathCons(m: Mapping, a: Vertex, p: seq<Vertex>)
    requires IsPath(m, p) && Positive(m, a, p[0])
    ensures IsPath(m, [a] + p)
  {
    var q := [a] + p;
    assert forall i :: 1 <= i < |q| - 1 ==> q[i] == p[i - 1] && q[i + 1] == p[i];
  }

  lemma ReachableSelf(m: Mapping, a: Vertex)
    ensures Reachable(m, a, a)
  {
    assert IsPath(m, [a]);
  }

  // ---------------------------------------------------------------------------
  // Edge insertion (graph.rs:32-41)

  /** `add_directed_edge`: insert a fresh edge orig->dest, creating `orig` if needed. */
  function WithDirectedEdge(m: Mapping, orig: Vertex, dest: Vertex): (r: Mapping)
    ensures r.Keys == m.Keys + {orig}
    ensures HasEdge(r, orig, dest) && r[orig][dest] == NewEdge()
    ensures forall u, v :: HasEdge(r, u, v) <==> HasEdge(m, u, v) || (u == orig && v == dest)
    ensures forall u, v :: HasEdge(m, u, v) && !(u == orig && v == dest) ==> HasEdge(r, u, v) && r[u][v] == m[u][v]
  {
    m[orig := (if orig in m then m[orig] else map[])[dest := NewEdge()]]
  }

  /** `add_edge`: both directions, each a fresh edge (an existing pair is overwritten, never
      duplicated); a residual graph stays one. */
  function WithEdge(m: Mapping, a: Vertex, b: Vertex): (r: Mapping)
    ensures r.Keys == m.Keys + {a, b}
    ensures HasEdge(r, a, b) && HasEdge(r, b, a) && r[a][b] == NewEdge() && r[b][a] == NewEdge()
    ensures forall u, v :: HasEdge(r, u, v) <==> HasEdge(m, u, v) || (u == a && v == b) || (u == b && v == a)
    ensures forall u, v :: HasEdge(m, u, v) && !(u == a && v == b) && !(u == b && v == a) ==>
      HasEdge(r, u, v) && r[u][v] == m[u][v]
  {
    WithDirectedEdge(WithDirectedEdge(m, a, b), b, a)
  }

  /** Adding an edge pair to a residual graph leaves a residual graph. */
  lemma WithEdgeKeepsResidual(m: Mapping, a: Vertex, b: Vertex)
    requires ResidualGraph(m)
    ensures ResidualGraph(WithEdge(m, a, b))
  {
    var r := WithEdge(m, a, b);
    forall u, v | HasEdge(r, u, v)
      ensures HasEdge(r, v, u) && r[u][v].capacity == 1
      ensures r[v][u].flow == -r[u][v].flow && r[u][v].flow <= 1
    {
      if !((u == a && v == b) || (u == b && v == a)) {
        assert HasEdge(m, u, v) && HasEdge(m, v, u);
      }
    }
  }

  // ---------------------------------------------------------------------------
  // Flow updates (graph.rs:21-23, 47-59)

  /** `mapping.entry(u).and_modify(|e| { e.entry(v).and_modify(|f| f.add_flow(amount)); })`:
      only the edge u->v changes, and nothing happens when it is missing. */
  function AddFlowAt(m: Mapping, u: Vertex, v: Vertex, amount: int): Mapping {
    if HasEdge(m, u, v) then m[u := m[u][v := m[u][v].AddFlow(amount)]] else m
  }

  lemma AddFlowAtEdges(m: Mapping, u: Vertex, v: Vertex, amount: int)
    ensures var r := AddFlowAt(m, u, v, amount);
      && SameKeys(m, r)
      && forall x, y :: HasEdge(m, x, y) ==>
        r[x][y] == if x == u && y == v then m[x][y].AddFlow(amount) else m[x][y]
  {
  }

  /** One turn of the augmentation loop: `f` more on current->v and `f` less on v->current. */
  function StepFlow(m: Mapping, current: Vertex, v: Vertex, f: int): Mapping {
    AddFlowAt(AddFlowAt(m, current, v, f), v, current, -f)
  }

  /** The mapping after the augmentation loop of graph.rs:49-59 has run from `current`
      over `path`. */
  function Augmented(m: Mapping, current: Vertex, path: seq<Vertex>, f: int): Mapping
    decreases |path|
  {
    if path == [] then m else Augmented(StepFlow(m, current, path[0], f), path[0], path[1..], f)
  }

  /** The augmentation as written: the loop starts from the literal "sink" (graph.rs:48). */
  function AugmentAsWritten(m: Mapping, path: seq<Vertex>, f: int): Mapping {
    Augmented(m, "sink", path, f)
  }

  /** The augmentation as intended: the loop starts from the path's own first vertex,
      so its first step is the pair (source, source), which changes nothing. */
  function Augment(m: Mapping, path: seq<Vertex>, f: int): Mapping
    requires |path| >= 1
  {
    Augmented(m, path[0], path, f)
  }

  /** The net change that walking `p` makes to the flow of u->v: `f` for each step u->v,
      `-f` for each step v->u. */
  function Delta(p: seq<Vertex>, u: Vertex, v: Vertex, f: int): int
    decreases |p|
  {
    if |p| < 2 then 0
    else
      (if p[0] == u && p[1] == v then f else 0) - (if p[0] == v && p[1] == u then f else 0)
      + Delta(p[1..], u, v, f)
  }

  /** One step moves the flow of current->v by `f` and of v->current by `-f`. */
  lemma StepFlowEdges(m: Mapping, c: Vertex, v: Vertex, f: int)
    ensures SameKeys(m, StepFlow(m, c, v, f))
    ensures forall x, y :: HasEdge(m, x, y) ==>
      HasEdge(StepFlow(m, c, v, f), x, y) &&
      StepFlow(m, c, v, f)[x][y] == m[x][y].AddFlow(Delta([c, v], x, y, f))
  {
    AddFlowAtEdges(m, c, v, f);
    AddFlowAtEdges(AddFlowAt(m, c, v, f), v, c, -f);
    forall x, y | HasEdge(m, x, y)
      ensures HasEdge(StepFlow(m, c, v, f), x, y)
      ensures StepFlow(m, c, v, f)[x][y] == m[x][y].AddFlow(Delta([c, v], x, y, f))
    {
      StepFlowEdge(m, c, v, f, x, y);
    }
  }

  lemma StepFlowEdge(m: Mapping, c: Vertex, v: Vertex, f: int, x: Vertex, y: Vertex)
    requires HasEdge(m, x, y)
    ensures HasEdge(StepFlow(m, c, v, f), x, y)
    ensures StepFlow(m, c, v, f)[x][y] == m[x][y].AddFlow(Delta([c, v], x, y, f))
  {
    var m1 := AddFlowAt(m, c, v, f);
    AddFlowAtEdges(m, c, v, f);
    AddFlowAtEdges(m1, v, c, -f);
    DeltaPair(c, v, x, y, f);
    var e1 := if x == c && y == v then m[x][y].AddFlow(f) else m[x][y];
    assert m1[x][y] == e1;
  }

  lemma DeltaPair(c: Vertex, v: Vertex, x: Vertex, y: Vertex, f: int)
    ensures Delta([c, v], x, y, f) == (if c == x && v == y then f else 0) - (if c == y && v == x then f else 0)
  {
    assert [c, v][1..] == [v];
  }

  lemma DeltaCons(c: Vertex, p: seq<Vertex>, x: Vertex, y: Vertex, f: int)
    requires p != []
    ensures Delta([c] + p, x, y, f) == Delta([c, p[0]], x, y, f) + Delta(p, x, y, f)
  {
    assert ([c] + p)[1..] == p;
  }

  /** Every edge's flow moves by the net change of the walk `[current] + p`; nothing else moves. */
  lemma {:induction false} AugmentedEdges(m: Mapping, c: Vertex, p: seq<Vertex>, f: int)
    ensures SameKeys(m, Augmented(m, c, p, f))
    ensures forall u, v :: HasEdge(m, u, v) ==>
      HasEdge(Augmented(m, c, p, f), u, v) &&
      Augmented(m, c, p, f)[u][v] == m[u][v].AddFlow(Delta([c] + p, u, v, f))
    decreases |p|
  {
    if p != [] {
      var v := p[0];
      var m1 := StepFlow(m, c, v, f);
      StepFlowEdges(m, c, v, f);
      AugmentedEdges(m1, v, p[1..], f);
      assert [v] + p[1..] == p;
      forall x, y | HasEdge(m, x, y)
        ensures Delta([c] + p, x, y, f) == Delta([c, v], x, y, f) + Delta(p, x, y, f)
      {
        DeltaCons(c, p, x, y, f);
      }
    }
  }

  lemma {:induction false} DeltaAbsent(p: seq<Vertex>, x: Vertex, y: Vertex, f: int)
    requires x !in p
    ensures Delta(p, x, y, f) == 0 && Delta(p, y, x, f) == 0
    decreases |p|
  {
    if |p| >= 2 {
      DeltaAbsent(p[1..], x, y, f);
    }
  }

  lemma {:induction false} DeltaSkew(p: seq<Vertex>, u: Vertex, v: Vertex, f: int)
    ensures Delta(p, v, u, f) == -Delta(p, u, v, f)
    decreases |p|
  {
    if |p| >= 2 {
      DeltaSkew(p[1..], u, v, f);
    }
  }

  /** On a path without repeated vertices an edge gains at most `f`, and only when it is
      one of the path's steps. */
  lemma {:induction false} DeltaOfDistinct(p: seq<Vertex>, u: Vertex, v: Vertex, f: int)
    requires Distinct(p) && f >= 0
    ensures Delta(p, u, v, f) <= 0 ||
      (Delta(p, u, v, f) == f && exists i :: 0 <= i < |p| - 1 && p[i] == u && p[i + 1] == v)
    decreases |p|
  {
    if |p| >= 2 {
      var q := p[1..];
      assert Distinct(q);
      assert p[0] !in q;
      DeltaOfDistinct(q, u, v, f);
      if p[0] == u && p[1] == v {
        DeltaAbsent(q, u, v, f);
      } else if p[0] == v && p[1] == u {
        DeltaAbsent(q, v, u, f);
      } else if Delta(q, u, v, f) > 0 {
        var i :| 0 <= i < |q| - 1 && q[i] == u && q[i + 1] == v;
        assert p[i + 1] == u && p[i + 2] == v;
      }
    }
  }

  /** Of the edges leaving the start of a path without repeated vertices, only the first
      step gains flow. */
  lemma DeltaFromStart(p: seq<Vertex>, v: Vertex, f: int)
    requires |p| >= 2 && Distinct(p)
    ensures Delta(p, p[0], v, f) == if v == p[1] then f else 0
  {
    assert p[0] !in p[1..];
    DeltaAbsent(p[1..], p[0], v, f);
  }

  /** The units of residual capacity on the edges leaving `s`: the measure that the
      max-flow loop lowers. */
  ghost function OutUnits(m: Mapping, s: Vertex): set<(Vertex, int)>
    requires s in m
  {
    set v, k | v in m[s] && 0 <= k < m[s][v].capacity - m[s][v].flow :: (v, k)
  }

  /** `f` is at most the residual capacity of every step of `p`. */
  ghost predicate FitsPath(m: Mapping, p: seq<Vertex>, f: int) {
    forall i :: 0 <= i < |p| - 1 ==> HasEdge(m, p[i], p[i + 1]) && f <= m[p[i]][p[i + 1]].ResidualCapacity()
  }

  /** `f` is the smallest residual capacity on the steps of `p`. */
  ghost predicate IsBottleneck(m: Mapping, p: seq<Vertex>, f: int) {
    && FitsPath(m, p, f)
    && exists i :: 0 <= i < |p| - 1 && HasEdge(m, p[i], p[i + 1]) && f == m[p[i]][p[i + 1]].ResidualCapacity()
  }

  /** What `find_path` guarantees about the path and flow it hands to the augmentation. */
  ghost predicate Augmentable(m: Mapping, p: seq<Vertex>, f: int) {
    |p| >= 2 && p[0] in m && IsPath(m, p) && Distinct(p) && f >= 1 && FitsPath(m, p, f)
  }

  /** Augmenting from the path's own start moves each flow by the net change of the path. */
  lemma AugmentEdges(m: Mapping, p: seq<Vertex>, f: int)
    requires |p| >= 1
    ensures SameKeys(m, Augment(m, p, f))
    ensures forall u, v :: HasEdge(m, u, v) ==>
      HasEdge(Augment(m, p, f), u, v) && Augment(m, p, f)[u][v] == m[u][v].AddFlow(Delta(p, u, v, f))
  {
    AugmentedEdges(m, p[0], p, f);
    assert ([p[0]] + p)[1..] == p;
  }

  /** Augmenting keeps the residual-graph invariants and the shape. */
  lemma AugmentKeepsInvariants(m: Mapping, p: seq<Vertex>, f: int)
    requires ResidualGraph(m) && Augmentable(m, p, f)
    ensures SameShape(m, Augment(m, p, f))
    ensures ResidualGraph(Augment(m, p, f))
  {
    var r: Mapping := Augment(m, p, f);
    AugmentEdges(m, p, f);
    forall u, v | HasEdge(r, u, v)
      ensures HasEdge(m, u, v) && HasEdge(r, v, u)
      ensures r[u][v].capacity == 1 && r[v][u].flow == -r[u][v].flow
    {
      DeltaSkew(p, u, v, f);
      assert HasEdge(m, v, u);
    }
    forall u, v | HasEdge(r, u, v)
      ensures r[u][v].flow <= r[u][v].capacity
    {
      assert HasEdge(m, u, v);
      DeltaOfDistinct(p, u, v, f);
      if Delta(p, u, v, f) > 0 {
        var i :| 0 <= i < |p| - 1 && p[i] == u && p[i + 1] == v;
        assert HasEdge(m, p[i], p[i + 1]) && f <= m[p[i]][p[i + 1]].ResidualCapacity();
        ResidualInRange(m, u, v);
      }
    }
  }

  /** Augmenting lowers the residual capacity leaving the source: the measure that makes
      the max-flow loop terminate. */
  lemma AugmentLowersOutUnits(m: Mapping, p: seq<Vertex>, f: int)
    requires ResidualGraph(m) && Augmentable(m, p, f)
    ensures p[0] in Augment(m, p, f) && OutUnits(Augment(m, p, f), p[0]) < OutUnits(m, p[0])
  {
    var s: Vertex, v1: Vertex := p[0], p[1];
    var r: Mapping := Augment(m, p, f);
    AugmentEdges(m, p, f);
    assert HasEdge(m, p[0], p[1]) && f <= m[p[0]][p[1]].ResidualCapacity();
    ResidualInRange(m, s, v1);
    forall v: Vertex | v in m[s]
      ensures v in r[s] && r[s][v].capacity == m[s][v].capacity
      ensures r[s][v].flow == m[s][v].flow + (if v == v1 then f else 0)
    {
      assert HasEdge(m, s, v);
      DeltaFromStart(p, v, f);
    }
    var before := m[s][v1].capacity - m[s][v1].flow;
    assert (v1, before - 1) in OutUnits(m, s);
    assert (v1, before - 1) !in OutUnits(r, s);
  }

  lemma StepFlowNoEdge(m: Mapping, u: Vertex, v: Vertex, f: int)
    requires !HasEdge(m, u, v) && !HasEdge(m, v, u)
    ensures StepFlow(m, u, v, f) == m
  {
  }

  lemma StepFlowSelf(m: Mapping, u: Vertex, f: int)
    ensures StepFlow(m, u, u, f) == m
  {
    if HasEdge(m, u, u) {
      var e := m[u][u];
      var m1 := m[u := m[u][u := e.AddFlow(f)]];
      assert AddFlowAt(m, u, u, f) == m1;
      assert HasEdge(m1, u, u) && m1[u][u] == e.AddFlow(f);
      assert e.AddFlow(f).AddFlow(-f) == e;
      assert m1[u][u := e] == m[u];
      assert AddFlowAt(m1, u, u, -f) == m1[u := m1[u][u := e]];
    }
  }

  /** The first step of the loop as written touches the pair ("sink", source) and
      nothing else; it changes nothing when the source has no neighbour named "sink". */
  lemma AsWrittenAgreesWithoutSinkNeighbour(m: Mapping, p: seq<Vertex>, f: int)
    requires |p| >= 1 && Symmetric(m)
    requires p[0] == "sink" || !HasEdge(m, p[0], "sink")
    ensures AugmentAsWritten(m, p, f) == Augment(m, p, f)
  {
    var s := p[0];
    if s != "sink" {
      assert !HasEdge(m, "sink", s);
      StepFlowNoEdge(m, "sink", s, f);
    }
    StepFlowSelf(m, s, f);
  }

  /** A graph whose source "s" has a neighbour literally named "sink". */
  function ExampleGraph(): Mapping {
    WithEdge(WithEdge(WithEdge(WithEdge(map[], "s", "sink"), "s", "t"), "s", "a"), "a", "t")
  }

  /** Fresh edges s-"sink", s-t, s-a and a-t, as `add_edge` leaves them. */
  ghost predicate SinkNeighbourExample(m: Mapping) {
    && HasEdge(m, "sink", "s") && m["sink"]["s"] == NewEdge()
    && HasEdge(m, "s", "t") && m["s"]["t"] == NewEdge()
    && HasEdge(m, "s", "a") && m["s"]["a"] == NewEdge()
    && HasEdge(m, "a", "t") && m["a"]["t"] == NewEdge()
  }

  lemma ExampleGraphEdges()
    ensures ResidualGraph(ExampleGraph()) && SinkNeighbourExample(ExampleGraph())
  {
    var m1 := WithEdge(map[], "s", "sink");
    var m2 := WithEdge(m1, "s", "t");
    var m3 := WithEdge(m2, "s", "a");
    assert ResidualGraph(map[]);
    WithEdgeKeepsResidual(map[], "s", "sink");
    WithEdgeKeepsResidual(m1, "s", "t");
    WithEdgeKeepsResidual(m2, "s", "a");
    WithEdgeKeepsResidual(m3, "a", "t");
  }

  lemma AsWrittenEdge(m: Mapping, p: seq<Vertex>, f: int, x: Vertex, y: Vertex)
    requires HasEdge(m, x, y)
    ensures HasEdge(AugmentAsWritten(m, p, f), x, y)
    ensures AugmentAsWritten(m, p, f)[x][y] == m[x][y].AddFlow(Delta(["sink"] + p, x, y, f))
  {
    AugmentedEdges(m, "sink", p, f);
  }

  /** The loop as written breaks the residual graph when the source has a neighbour
      literally named "sink" that no path goes through: each augmentation also pushes its
      flow over "sink"->source, so after two of them that unit-capacity edge carries
      flow `f1 + f2 >= 2`. */
  lemma AsWrittenOverflowsResidual(m: Mapping, p1: seq<Vertex>, f1: int, p2: seq<Vertex>, f2: int)
    requires ResidualGraph(m) && Augmentable(m, p1, f1) && Augmentable(AugmentAsWritten(m, p1, f1), p2, f2)
    requires p2[0] == p1[0] != "sink" && "sink" !in p1 && "sink" !in p2
    requires HasEdge(m, "sink", p1[0]) && m["sink"][p1[0]] == NewEdge()
    ensures var m2 := AugmentAsWritten(AugmentAsWritten(m, p1, f1), p2, f2);
      && HasEdge(m2, "sink", p1[0]) && m2["sink"][p1[0]].flow == f1 + f2
      && !Feasible(m2)
  {
    var s := p1[0];
    var m1 := AugmentAsWritten(m, p1, f1);
    AsWrittenEdge(m, p1, f1, "sink", s);
    DeltaAbsent(p1, "sink", s, f1);
    assert (["sink"] + p1)[1..] == p1;
    AsWrittenEdge(m1, p2, f2, "sink", s);
    DeltaAbsent(p2, "sink", s, f2);
    assert (["sink"] + p2)[1..] == p2;
  }

  lemma ExampleDeltas()
    ensures Delta(["sink", "s", "t"], "s", "a", 1) == 0
    ensures Delta(["sink", "s", "t"], "a", "t", 1) == 0
  {
  }

  /** The second path s a t is still available after augmenting along s t as written. */
  lemma ExampleSecondPath(m0: Mapping, p1: seq<Vertex>)
    requires HasEdge(m0, "s", "a") && m0["s"]["a"] == NewEdge() && HasEdge(m0, "a", "t") && m0["a"]["t"] == NewEdge()
    requires p1 == ["s", "t"]
    ensures Augmentable(AugmentAsWritten(m0, p1, 1), ["s", "a", "t"], 1)
  {
    ExampleDeltas();
    assert ["sink"] + p1 == ["sink", "s", "t"];
    AsWrittenEdge(m0, p1, 1, "s", "a");
    AsWrittenEdge(m0, p1, 1, "a", "t");
  }

  /** With s-"sink", s-t, s-a and a-t fresh, as `add_edge` leaves them (`ExampleGraphEdges`),
      the paths s t and then s a t meet the conditions of `AsWrittenOverflowsResidual`. */
  lemma ExampleOverflows(m0: Mapping, p1: seq<Vertex>, p2: seq<Vertex>)
    requires ResidualGraph(m0) && SinkNeighbourExample(m0) && p1 == ["s", "t"] && p2 == ["s", "a", "t"]
    ensures !Feasible(AugmentAsWritten(AugmentAsWritten(m0, p1, 1), p2, 1))
  {
    assert IsPath(m0, p1);
    ExampleSecondPath(m0, p1);
    AsWrittenOverflowsResidual(m0, p1, 1, p2, 1);
  }

  // ---------------------------------------------------------------------------
  // The bottleneck of a path (graph.rs:154-169)

  function Min(a: int, b: int): int {
    if a <= b then a else b
  }

  /** `max_flow`: `usize::MAX` lowered to each residual capacity along the path. */
  function MinResidual(m: Mapping, p: seq<Vertex>): nat
    requires |p| >= 1
    requires forall i :: 0 <= i < |p| - 1 ==> HasEdge(m, p[i], p[i + 1])
    decreases |p|
  {
    if |p| == 1 then UsizeMax
    else
      assert HasEdge(m, p[0], p[1]);
      Min(m[p[0]][p[1]].ResidualCapacity(), MinResidual(m, p[1..]))
  }

  /** The smallest residual capacity fits every step of the path. */
  lemma {:induction false} MinResidualFits(m: Mapping, p: seq<Vertex>)
    requires |p| >= 2
    requires forall i :: 0 <= i < |p| - 1 ==> HasEdge(m, p[i], p[i + 1])
    ensures FitsPath(m, p, MinResidual(m, p))
    decreases |p|
  {
    var q := p[1..];
    assert HasEdge(m, p[0], p[1]);
    if |p| > 2 {
      MinResidualFits(m, q);
      forall i | 0 <= i < |p| - 1
        ensures HasEdge(m, p[i], p[i + 1]) && MinResidual(m, p) <= m[p[i]][p[i + 1]].ResidualCapacity()
      {
        if i > 0 {
          assert p[i] == q[i - 1] && p[i + 1] == q[i];
        }
      }
    }
  }

  /** The smallest residual capacity is that of some step of the path. */
  lemma {:induction false} MinResidualAttained(m: Mapping, p: seq<Vertex>) returns (j: nat)
    requires |p| >= 2
    requires forall i :: 0 <= i < |p| - 1 ==> HasEdge(m, p[i], p[i + 1])
    ensures j < |p| - 1 && HasEdge(m, p[j], p[j + 1]) && MinResidual(m, p) == m[p[j]][p[j + 1]].ResidualCapacity()
    decreases |p|
  {
    assert HasEdge(m, p[0], p[1]);
    if |p| == 2 {
      j := 0;
    } else {
      var q := p[1..];
      var k := MinResidualAttained(m, q);
      assert q[k] == p[k + 1] && q[k + 1] == p[k + 2];
      if m[p[0]][p[1]].ResidualCapacity() <= MinResidual(m, q) {
        j := 0;
      } else {
        j := k + 1;
      }
    }
  }

  lemma MinResidualIsBottleneck(m: Mapping, p: seq<Vertex>)
    requires |p| >= 2
    requires forall i :: 0 <= i < |p| - 1 ==> HasEdge(m, p[i], p[i + 1])
    ensures IsBottleneck(m, p, MinResidual(m, p))
  {
    MinResidualFits(m, p);
    var j := MinResidualAttained(m, p);
  }

  // ---------------------------------------------------------------------------
  // The breadth-first search's parent map

  /** What `find_path` keeps about `parents`: each vertex other than the source was reached
      from its parent over a positive edge, one step further from the source than it. */
  ghost predicate ParentTree(m: Mapping, source: Vertex, parents: map<Vertex, Vertex>, dist: map<Vertex, nat>) {
    && dist.Keys == parents.Keys + {source}
    && source !in parents && dist[source] == 0
    && forall x :: x in parents ==> parents[x] in dist && Positive(m, parents[x], x) && dist[x] == dist[parents[x]] + 1
  }

  /** The state `find_path`'s queue loop keeps: every visited vertex is either processed
      (all its positive edges lead to visited vertices) or still queued, and the sink has
      not been reached. */
  ghost predicate Frontier(m: Mapping, source: Vertex, sink: Vertex, queue: seq<Vertex>, visited: set<Vertex>,
                           processed: set<Vertex>, parents: map<Vertex, Vertex>, dist: map<Vertex, nat>) {
    && visited <= m.Keys && processed <= visited
    && (forall x :: x in queue ==> x in visited)
    && (forall x :: x in visited ==> x in processed || x in queue)
    && ClosedWithin(m, processed, visited)
    && (source != sink ==> sink !in visited)
    && ParentTree(m, source, parents, dist) && dist.Keys == visited
  }

  /** What scanning the edges of `current` leaves behind when the sink got no parent:
      the visited set only grew, every new vertex was queued behind the old queue, and
      every vertex `current` reaches over a positive edge is now visited. */
  ghost predicate Scanned(m: Mapping, source: Vertex, sink: Vertex, current: Vertex, queue: seq<Vertex>,
                          visited: set<Vertex>, queue': seq<Vertex>, visited': set<Vertex>, dist': map<Vertex, nat>) {
    && visited <= visited' <= m.Keys
    && (forall x :: x in queue' ==> x in visited')
    && (forall x :: x in queue ==> x in queue')
    && (forall x :: x in visited' ==> x in visited || x in queue')
    && (visited' == visited ==> queue' == queue)
    && (source != sink ==> sink !in visited')
    && dist'.Keys == visited'
    && (forall w :: Positive(m, current, w) ==> w in visited')
  }

  /** One round of the queue loop that does not reach the sink keeps the frontier and
      either grows the visited set or shortens the queue. */
  lemma FrontierStep(m: Mapping, source: Vertex, sink: Vertex, queue: seq<Vertex>, visited: set<Vertex>,
                     processed: set<Vertex>, parents: map<Vertex, Vertex>, dist: map<Vertex, nat>,
                     queue': seq<Vertex>, visited': set<Vertex>, parents': map<Vertex, Vertex>, dist': map<Vertex, nat>)
    requires Frontier(m, source, sink, queue, visited, processed, parents, dist) && |queue| >= 1
    requires ParentTree(m, source, parents', dist') && sink !in parents'
    requires Scanned(m, source, sink, queue[0], queue[1..], visited, queue', visited', dist')
    ensures Frontier(m, source, sink, queue', visited', processed + {queue[0]}, parents', dist')
    ensures m.Keys - visited' < m.Keys - visited || (visited' == visited && |queue'| < |queue|)
  {
    var current := queue[0];
    forall x | x in visited'
      ensures x in processed + {current} || x in queue'
    {
      if x in visited && x != current && x !in processed {
        assert x in queue;
        assert x in queue[1..];
      }
    }
    if visited' != visited {
      var y :| y in visited' && y !in visited;
      assert y in m.Keys - visited;
      assert y !in m.Keys - visited';
    }
  }

  /** What `find_path` hands back: a path of distinct vertices from the source to the
      sink over positive edges, with its bottleneck residual capacity as the flow. */
  ghost predicate AugmentingPath(m: Mapping, source: Vertex, sink: Vertex, path: Path) {
    var p := path.vertices;
    && |p| >= 2 && p[0] == source && p[|p| - 1] == sink
    && IsPath(m, p) && Distinct(p)
    && path.maxFlow >= 1 && IsBottleneck(m, p, path.maxFlow)
  }

  lemma FoundReachable(m: Mapping, source: Vertex, sink: Vertex, path: Path)
    requires AugmentingPath(m, source, sink, path)
    ensures source != sink && Reachable(m, source, sink)
  {
    var p := path.vertices;
    assert IsPath(m, p) && p[0] == source && p[|p| - 1] == sink;
  }

  /** One round of `ford_fulkerson` along a path `find_path` returned: the augmentation
      as written agrees with the one from the source, keeps the shape and the invariants
      of the residual graph, and strictly lowers the residual capacity out of the source. */
  lemma AugmentRound(m: Mapping, source: Vertex, sink: Vertex, path: Path)
    requires ResidualGraph(m) && AugmentingPath(m, source, sink, path)
    requires source == "sink" || !HasEdge(m, source, "sink")
    ensures var r := AugmentAsWritten(m, path.vertices, path.maxFlow);
      && r == Augment(m, path.vertices, path.maxFlow)
      && ResidualGraph(r) && SameShape(m, r)
      && source in r && (source == "sink" || !HasEdge(r, source, "sink"))
      && OutUnits(r, source) < OutUnits(m, source)
  {
    var p, f := path.vertices, path.maxFlow;
    assert p[0] in m by {
      assert Positive(m, p[0], p[1]);
    }
    assert Augmentable(m, p, f);
    AsWrittenAgreesWithoutSinkNeighbour(m, p, f);
    AugmentKeepsInvariants(m, p, f);
    AugmentLowersOutUnits(m, p, f);
  }

  lemma SameShapeRefl(m: Mapping)
    ensures SameShape(m, m)
  {
  }

  lemma SameShapeTrans(m1: Mapping, m2: Mapping, m3: Mapping)
    requires SameShape(m1, m2) && SameShape(m2, m3)
    ensures SameShape(m1, m3)
  {
  }

  /** A search whose queue ran dry has closed the visited set without meeting the sink,
      so the sink is out of the source's reach. */
  lemma FrontierExhausted(m: Mapping, source: Vertex, sink: Vertex, visited: set<Vertex>,
                          processed: set<Vertex>, parents: map<Vertex, Vertex>, dist: map<Vertex, nat>)
    requires Frontier(m, source, sink, [], visited, processed, parents, dist) && source != sink
    ensures !Reachable(m, source, sink)
  {
    assert source in visited;
    assert ClosedWithin(m, visited, visited);
    ClosedSeparates(m, visited, source, sink);
  }

  /** Distances from the source that grow by one along `w`. */
  ghost predicate Rising(dist: map<Vertex, nat>, w: seq<Vertex>) {
    forall i :: 0 <= i < |w| ==> w[i] in dist && w[0] in dist && dist[w[i]] == dist[w[0]] + i
  }

  lemma RisingDistinct(dist: map<Vertex, nat>, w: seq<Vertex>)
    requires Rising(dist, w)
    ensures Distinct(w)
  {
    forall i, j | 0 <= i < j < |w|
      ensures w[i] != w[j]
    {
      assert dist[w[i]] < dist[w[j]];
    }
  }

  /** One step of reading the path back: prepend the parent. */
  lemma PrependStep(m: Mapping, dist: map<Vertex, nat>, parent: Vertex, w: seq<Vertex>)
    requires |w| >= 1 && IsPath(m, w) && Rising(dist, w)
    requires Positive(m, parent, w[0]) && parent in dist && dist[w[0]] == dist[parent] + 1
    ensures IsPath(m, [parent] + w) && Rising(dist, [parent] + w)
    ensures MinResidual(m, [parent] + w) == Min(m[parent][w[0]].ResidualCapacity(), MinResidual(m, w))
  {
    var q := [parent] + w;
    assert forall i :: 1 <= i < |q| ==> q[i] == w[i - 1];
    assert q[1..] == w;
  }

  lemma TreeGrow(m: Mapping, source: Vertex, parents: map<Vertex, Vertex>, dist: map<Vertex, nat>, u: Vertex, w: Vertex)
    requires ParentTree(m, source, parents, dist) && u in dist && w !in dist && Positive(m, u, w)
    ensures ParentTree(m, source, parents[w := u], dist[w := dist[u] + 1])
  {
  }

  /** The state of `find_path`'s loop over the edges of `current`, with the ends in `todo`
      still to handle: the search so far only grew, and every positive edge of `current`
      already handled leads to a visited vertex. */
  ghost predicate ScanState(m: Mapping, source: Vertex, sink: Vertex, current: Vertex, queue: seq<Vertex>,
                            visited: set<Vertex>, todo: set<Vertex>, queue': seq<Vertex>, visited': set<Vertex>,
                            parents': map<Vertex, Vertex>, dist': map<Vertex, nat>) {
    && current in m && todo <= m[current].Keys
    && visited <= visited' <= m.Keys
    && ParentTree(m, source, parents', dist') && dist'.Keys == visited'
    && sink !in parents'
    && (forall x :: x in queue' ==> x in visited')
    && (forall x :: x in queue ==> x in queue')
    && (forall x :: x in visited' ==> x in visited || x in queue')
    && (visited' == visited ==> queue' == queue)
    && (source != sink ==> sink !in visited')
    && (forall w :: w in m[current] && w !in todo && Positive(m, current, w) ==> w in visited')
  }

  /** `parents'` keeps every parent of `parents`, and gives `current` to each vertex it
      adds. */
  ghost predicate ParentsExtended(parents: map<Vertex, Vertex>, parents': map<Vertex, Vertex>, current: Vertex) {
    && (forall w :: w in parents ==> w in parents' && parents'[w] == parents[w])
    && (forall w :: w in parents' && w !in parents ==> parents'[w] == current)
  }

  /** Giving `current` to a vertex without a parent keeps the extension. */
  lemma ParentsExtend(parents: map<Vertex, Vertex>, parents': map<Vertex, Vertex>, current: Vertex, next: Vertex)
    requires ParentsExtended(parents, parents', current) && next !in parents
    ensures ParentsExtended(parents, parents'[next := current], current)
  {
  }

  lemma ScanStart(m: Mapping, source: Vertex, sink: Vertex, current: Vertex, queue: seq<Vertex>,
                  visited: set<Vertex>, parents: map<Vertex, Vertex>, dist: map<Vertex, nat>)
    requires current in visited && visited <= m.Keys
    requires ParentTree(m, source, parents, dist) && dist.Keys == visited && sink !in parents
    requires forall x :: x in queue ==> x in visited
    requires source != sink ==> sink !in visited
    ensures ScanState(m, source, sink, current, queue, visited, m[current].Keys, queue, visited, parents, dist)
  {
  }

  /** An end that is not reached over a positive edge, or is already visited, changes
      nothing. */
  lemma ScanSkip(m: Mapping, source: Vertex, sink: Vertex, current: Vertex, queue: seq<Vertex>,
                 visited: set<Vertex>, todo: set<Vertex>, queue': seq<Vertex>, visited': set<Vertex>,
                 parents': map<Vertex, Vertex>, dist': map<Vertex, nat>, next: Vertex)
    requires ScanState(m, source, sink, current, queue, visited, todo, queue', visited', parents', dist')
    requires next in todo && (Positive(m, current, next) ==> next in visited')
    ensures ScanState(m, source, sink, current, queue, visited, todo - {next}, queue', visited', parents', dist')
  {
  }

  /** An unvisited end other than the sink, reached over a positive edge, gets its parent
      and joins the queue. */
  lemma ScanAdd(m: Mapping, source: Vertex, sink: Vertex, current: Vertex, queue: seq<Vertex>,
                visited: set<Vertex>, todo: set<Vertex>, queue': seq<Vertex>, visited': set<Vertex>,
                parents': map<Vertex, Vertex>, dist': map<Vertex, nat>, next: Vertex)
    requires Symmetric(m) && current in visited
    requires ScanState(m, source, sink, current, queue, visited, todo, queue', visited', parents', dist')
    requires next in todo && Positive(m, current, next) && next !in visited' && next != sink
    ensures ScanState(m, source, sink, current, queue, visited, todo - {next}, queue' + [next], visited' + {next},
                      parents'[next := current], dist'[next := dist'[current] + 1])
  {
    assert HasEdge(m, next, current);
    TreeGrow(m, source, parents', dist', current, next);
  }

  lemma ScanEnd(m: Mapping, source: Vertex, sink: Vertex, current: Vertex, queue: seq<Vertex>,
                visited: set<Vertex>, queue': seq<Vertex>, visited': set<Vertex>,
                parents': map<Vertex, Vertex>, dist': map<Vertex, nat>)
    requires ScanState(m, source, sink, current, queue, visited, {}, queue', visited', parents', dist')
    ensures Scanned(m, source, sink, current, queue, visited, queue', visited', dist')
  {
  }

  /** Keeps only the pairs whose destination lies outside `visited` (graph.rs:88). */
  function LeavingSet(pairs: seq<(Vertex, Vertex)>, visited: seq<Vertex>): (r: seq<(Vertex, Vertex)>)
    ensures forall e :: e in r <==> e in pairs && e.1 !in visited
    decreases |pairs|
  {
    if pairs == [] then []
    else if pairs[0].1 !in visited then [pairs[0]] + LeavingSet(pairs[1..], visited)
    else LeavingSet(pairs[1..], visited)
  }

  /** The edges leaving `s` with no residual capacity left. */
  ghost predicate IsCutOf(m: Mapping, s: set<Vertex>, cut: seq<(Vertex, Vertex)>) {
    forall e :: e in cut <==> e.0 in s && HasEdge(m, e.0, e.1) && m[e.0][e.1].ResidualCapacity() == 0
  }

  /** What `dfs(current, visited)` leaves behind: `visited` extended by `current` and then
      by more vertices, none twice; all that was added is reachable from `current` and
      closed under positive edges, and `cut` holds exactly the zero-residual edges out of
      the added vertices. */
  ghost predicate DfsDone(m: Mapping, current: Vertex, visited: seq<Vertex>, vo: seq<Vertex>, cut: seq<(Vertex, Vertex)>) {
    && |vo| > |visited| && vo[..|visited|] == visited && vo[|visited|] == current
    && Distinct(vo)
    && AllReachable(m, current, Elems(vo[|visited|..]))
    && ClosedWithin(m, Elems(vo[|visited|..]), Elems(vo))
    && IsCutOf(m, Elems(vo[|visited|..]), cut)
  }

  /** The state of `dfs`'s loop over the edges of `current` once the ends in `done` have
      been handled: the vertices added after `current` are closed, every positive edge of
      `current` handled so far leads to a visited vertex, and `cut` holds the zero-residual
      edges out of the added vertices and out of `current` towards `done`. */
  ghost predicate DfsScan(m: Mapping, current: Vertex, visited: seq<Vertex>, done: set<Vertex>,
                          vo: seq<Vertex>, cut: seq<(Vertex, Vertex)>) {
    && |vo| > |visited| && vo[..|visited|] == visited && vo[|visited|] == current
    && Distinct(vo)
    && AllReachable(m, current, Elems(vo[|visited|..]))
    && ClosedWithin(m, Elems(vo[|visited| + 1..]), Elems(vo))
    && (forall w :: w in done && Positive(m, current, w) ==> w in vo)
    && (forall e :: e in cut <==>
          && (e.0 in Elems(vo[|visited| + 1..]) || (e.0 == current && e.1 in done))
          && HasEdge(m, e.0, e.1) && m[e.0][e.1].ResidualCapacity() == 0)
  }

  lemma DfsStart(m: Mapping, current: Vertex, visited: seq<Vertex>)
    requires Distinct(visited) && current !in visited
    ensures DfsScan(m, current, visited, {}, visited + [current], [])
  {
    var vo := visited + [current];
    assert vo[..|visited|] == visited;
    assert vo[|visited|..] == [current];
    assert vo[|visited| + 1..] == [];
    ReachableSelf(m, current);
  }

  /** An edge with residual left whose end is already visited changes nothing. */
  lemma DfsSkip(m: Mapping, current: Vertex, visited: seq<Vertex>, done: set<Vertex>,
                vo: seq<Vertex>, cut: seq<(Vertex, Vertex)>, w: Vertex)
    requires DfsScan(m, current, visited, done, vo, cut)
    requires HasEdge(m, current, w) && m[current][w].ResidualCapacity() > 0 && w in vo
    ensures DfsScan(m, current, visited, done + {w}, vo, cut)
  {
  }

  /** An edge with no residual left is recorded in the cut. */
  lemma DfsSaturated(m: Mapping, current: Vertex, visited: seq<Vertex>, done: set<Vertex>,
                     vo: seq<Vertex>, cut: seq<(Vertex, Vertex)>, w: Vertex)
    requires DfsScan(m, current, visited, done, vo, cut)
    requires HasEdge(m, current, w) && m[current][w].ResidualCapacity() == 0
    ensures DfsScan(m, current, visited, done + {w}, vo, cut + [(current, w)])
  {
  }

  lemma ElemsSplit(vo: seq<Vertex>, vo2: seq<Vertex>, k: nat)
    requires k <= |vo| <= |vo2| && vo2[..|vo|] == vo
    ensures Elems(vo2[k..]) == Elems(vo[k..]) + Elems(vo2[|vo|..])
    ensures Elems(vo) <= Elems(vo2)
  {
    assert vo2[k..] == vo[k..] + vo2[|vo|..];
    forall x | x in vo
      ensures x in vo2
    {
      var i :| 0 <= i < |vo| && vo[i] == x;
      assert vo2[i] == x;
    }
  }

  /** The recursive call on a positive edge to an unvisited end adds what it reaches. */
  lemma DfsDescend(m: Mapping, current: Vertex, visited: seq<Vertex>, done: set<Vertex>,
                   vo: seq<Vertex>, cut: seq<(Vertex, Vertex)>, w: Vertex, vo2: seq<Vertex>, cut2: seq<(Vertex, Vertex)>)
    requires DfsScan(m, current, visited, done, vo, cut)
    requires Positive(m, current, w) && w !in vo
    requires DfsDone(m, w, vo, vo2, cut2)
    ensures DfsScan(m, current, visited, done + {w}, vo2, cut + cut2)
  {
    var n := |visited|;
    ElemsSplit(vo, vo2, n);
    ElemsSplit(vo, vo2, n + 1);
    assert vo2[..n] == visited by {
      assert vo2[..n] == vo2[..|vo|][..n];
    }
    assert vo2[n] == current by {
      assert vo2[n] == vo2[..|vo|][n];
    }
    forall x | x in Elems(vo2[|vo|..])
      ensures Reachable(m, current, x)
    {
      ReachableStep(m, current, w, x);
    }
    assert w in vo2 by {
      assert vo2[|vo|] == w;
    }
  }

  lemma DfsFinish(m: Mapping, current: Vertex, visited: seq<Vertex>, done: set<Vertex>,
                  vo: seq<Vertex>, cut: seq<(Vertex, Vertex)>)
    requires DfsScan(m, current, visited, done, vo, cut)
    requires current in m ==> m[current].Keys <= done
    ensures DfsDone(m, current, visited, vo, cut)
  {
    var n := |visited|;
    assert vo[n..] == [current] + vo[n + 1..];
    assert Elems(vo[n..]) == {current} + Elems(vo[n + 1..]);
  }

  lemma DfsShrinks(m: Mapping, current: Vertex, visited: seq<Vertex>, vo: seq<Vertex>)
    requires current in m && current !in visited
    requires |vo| > |visited| && vo[..|visited|] == visited && vo[|visited|] == current
    ensures m.Keys - Elems(vo) < m.Keys - Elems(visited)
  {
    ElemsSplit(visited, vo, 0);
    assert current in Elems(vo);
  }

  /** Run from the source with nothing visited, `dfs` visits exactly what the source
      reaches, and its cut is every zero-residual edge out of that set. */
  lemma DfsReach(m: Mapping, a: Vertex, vo: seq<Vertex>, cut: seq<(Vertex, Vertex)>)
    requires DfsDone(m, a, [], vo, cut)
    ensures forall x :: x in vo <==> Reachable(m, a, x)
    ensures IsCutOf(m, Elems(vo), cut)
  {
    assert vo[0..] == vo;
    ClosedReachableSet(m, a, Elems(vo));
  }

  lemma ReachableExtend(m: Mapping, a: Vertex, u: Vertex, v: Vertex)
    requires Reachable(m, a, u) && Positive(m, u, v)
    ensures Reachable(m, a, v)
  {
    var p :| IsPath(m, p) && p[0] == a && p[|p| - 1] == u;
    var q := p + [v];
    forall i | 0 <= i < |q| - 1
      ensures Positive(m, q[i], q[i + 1])
    {
      if i < |p| - 1 {
        assert q[i] == p[i] && q[i + 1] == p[i + 1];
      }
    }
    assert IsPath(m, q);
  }

  /** Every edge from the vertices `a` reaches to the others has no residual capacity
      left, so the edges `min_cut` lists are all the edges that cross. */
  lemma CrossingEdgesSaturated(m: Mapping, a: Vertex, u: Vertex, v: Vertex)
    requires Reachable(m, a, u) && HasEdge(m, u, v) && !Reachable(m, a, v)
    ensures m[u][v].ResidualCapacity() == 0
  {
    if m[u][v].ResidualCapacity() > 0 {
      ReachableExtend(m, a, u, v);
      assert false;
    }
  }

  // ---------------------------------------------------------------------------
  // The graph object

  class Graph {
    var mapping: Mapping

    ghost predicate Valid()
      reads this
    {
      ResidualGraph(mapping)
    }

    /** `Graph::default()`. */
    constructor ()
      ensures mapping == map[]
      ensures Valid()
    {
      mapping := map[];
    }

    /** `self.clone()`: a new graph holding the same mapping. */
    constructor Clone(other: Graph)
      ensures mapping == other.mapping
    {
      mapping := other.mapping;
    }

    method AddDirectedEdge(orig: Vertex, dest: Vertex)
      modifies this
      ensures mapping == WithDirectedEdge(old(mapping), orig, dest)
    {
      if orig in mapping {
        mapping := mapping[orig := mapping[orig][dest := NewEdge()]];
      } else {
        mapping := mapping[orig := map[dest := NewEdge()]];
      }
    }

    method AddEdge(orig: Vertex, dest: Vertex)
      modifies this
      ensures mapping == WithEdge(old(mapping), orig, dest)
      ensures old(Valid()) ==> Valid()
    {
      if Valid() {
        WithEdgeKeepsResidual(mapping, orig, dest);
      }
      AddDirectedEdge(orig, dest);
      AddDirectedEdge(dest, orig);
    }

    /** One `entry(u).and_modify(.. entry(v).and_modify(add_flow))` of the augmentation loop. */
    method AddFlowTo(u: Vertex, v: Vertex, amount: int)
      modifies this
      ensures mapping == AddFlowAt(old(mapping), u, v, amount)
    {
      if u in mapping && v in mapping[u] {
        mapping := mapping[u := mapping[u][v := mapping[u][v].AddFlow(amount)]];
      }
    }

    /** `ford_fulkerson`: on a copy of the graph, augment along the paths `find_path`
        returns until none is left. The copy keeps the shape of the graph and is still a
        residual graph, and in it the sink is out of the source's reach: no augmenting
        path is left. */
    method FordFulkerson(source: Vertex, sink: Vertex) returns (residual: Graph)
      requires Valid() && source in mapping
      requires source == "sink" || !HasEdge(mapping, source, "sink")
      ensures fresh(residual) && residual.Valid() && SameShape(mapping, residual.mapping)
      ensures source == sink || !Reachable(residual.mapping, source, sink)
    {
      residual := new Graph.Clone(this);
      SameShapeRefl(mapping);
      while true
        invariant fresh(residual) && residual.Valid() && SameShape(mapping, residual.mapping)
        invariant source in residual.mapping
        invariant source == "sink" || !HasEdge(residual.mapping, source, "sink")
        decreases OutUnits(residual.mapping, source)
      {
        var found := residual.FindPath(source, sink);
        if found.None? {
          break;
        }
        var vertices, maxFlow := found.value.vertices, found.value.maxFlow;
        ghost var before := residual.mapping;
        residual.AugmentPath(vertices, maxFlow);
        AugmentRound(before, source, sink, found.value);
        SameShapeTrans(mapping, before, residual.mapping);
      }
    }

    /** The `for` loop of `ford_fulkerson` (graph.rs:48-59): push `maxFlow` along each
        step of the path, starting from the vertex literally named "sink". */
    method AugmentPath(vertices: seq<Vertex>, maxFlow: nat)
      modifies this
      ensures mapping == AugmentAsWritten(old(mapping), vertices, maxFlow)
    {
      var current: Vertex := "sink";
      var rest := vertices;
      while rest != []
        invariant Augmented(mapping, current, rest, maxFlow) == AugmentAsWritten(old(mapping), vertices, maxFlow)
      {
        var v := rest[0];
        AddFlowTo(current, v, maxFlow);
        AddFlowTo(v, current, -(maxFlow as int));
        current, rest := v, rest[1..];
      }
    }

    /** `dfs`: mark `current` visited, then for every edge out of it either descend into
        an unvisited end over positive residual or, with no residual left, record the
        edge. */
    method Dfs(current: Vertex, visited: seq<Vertex>) returns (visitedOut: seq<Vertex>, cut: seq<(Vertex, Vertex)>)
      requires Distinct(visited) && current !in visited
      ensures DfsDone(mapping, current, visited, visitedOut, cut)
      decreases mapping.Keys - Elems(visited)
    {
      visitedOut := visited + [current];
      cut := [];
      DfsStart(mapping, current, visited);
      ghost var done: set<Vertex> := {};
      if current in mapping {
        var edges := mapping[current];
        var todo := edges.Keys;
        while todo != {}
          invariant todo + done == edges.Keys
          invariant DfsScan(mapping, current, visited, done, visitedOut, cut)
          decreases todo
        {
          var end :| end in todo;
          todo := todo - {end};
          if edges[end].ResidualCapacity() > 0 {
            if end !in visitedOut {
              DfsShrinks(mapping, current, visited, visitedOut);
              var more, moreCut := Dfs(end, visitedOut);
              DfsDescend(mapping, current, visited, done, visitedOut, cut, end, more, moreCut);
              visitedOut, cut := more, cut + moreCut;
            } else {
              DfsSkip(mapping, current, visited, done, visitedOut, cut, end);
            }
          } else {
            DfsSaturated(mapping, current, visited, done, visitedOut, cut, end);
            cut := cut + [(current, end)];
          }
          done := done + {end};
        }
      }
      DfsFinish(mapping, current, visited, done, visitedOut, cut);
    }

    /** `min_cut`: the zero-residual edges from the vertices the source reaches to the
        vertices it does not. */
    method MinCut(source: Vertex) returns (r: seq<(Vertex, Vertex)>)
      ensures forall e :: e in r <==>
        && Reachable(mapping, source, e.0) && HasEdge(mapping, e.0, e.1)
        && mapping[e.0][e.1].ResidualCapacity() == 0 && !Reachable(mapping, source, e.1)
    {
      var visited, cut := Dfs(source, []);
      DfsReach(mapping, source, visited, cut);
      r := LeavingSet(cut, visited);
    }

    /** `partition`: the vertices the source reaches, in visiting order, and every other
        vertex of the mapping. */
    method Partition(source: Vertex) returns (sourceSide: seq<Vertex>, sinkSide: seq<Vertex>)
      ensures forall x :: x in sourceSide <==> Reachable(mapping, source, x)
      ensures forall x :: x in sinkSide <==> x in mapping && !Reachable(mapping, source, x)
      ensures Distinct(sourceSide) && Distinct(sinkSide)
    {
      var visited, cut := Dfs(source, []);
      DfsReach(mapping, source, visited, cut);
      sourceSide := visited;
      sinkSide := [];
      var keys := mapping.Keys;
      while keys != {}
        invariant keys <= mapping.Keys
        invariant forall x :: x in sinkSide <==> x in mapping && x !in keys && x !in visited
        invariant Distinct(sinkSide)
        decreases keys
      {
        var k :| k in keys;
        keys := keys - {k};
        if k !in visited {
          sinkSide := sinkSide + [k];
        }
      }
    }

    /** `find_path`: breadth-first search from `source` over positive edges, stopping as
        soon as `sink` gets a parent; then the path read back through the parents, with the
        smallest residual capacity on it. */
    method FindPath(source: Vertex, sink: Vertex) returns (r: Option<Path>)
      requires source in mapping && Symmetric(mapping)
      ensures r.None? <==> source == sink || !Reachable(mapping, source, sink)
      ensures r.Some? ==> AugmentingPath(mapping, source, sink, r.value)
    {
      var found, parents, dist := Search(source, sink);
      if !found {
        return None;
      }
      var path := ReadPath(source, sink, parents, dist);
      FoundReachable(mapping, source, sink, path);
      r := Some(path);
    }

    /** The queue loop of `find_path` (graph.rs:128-150): a breadth-first search from
        the source that stops once the sink gets a parent. */
    method Search(source: Vertex, sink: Vertex) returns (found: bool, parents: map<Vertex, Vertex>, ghost dist: map<Vertex, nat>)
      requires source in mapping && Symmetric(mapping)
      ensures found ==> ParentTree(mapping, source, parents, dist) && sink in parents && source != sink
      ensures !found ==> source == sink || !Reachable(mapping, source, sink)
    {
      var queue: seq<Vertex> := [source];
      var visited: set<Vertex> := {source};
      ghost var processed: set<Vertex> := {};
      parents, dist := map[], map[source := 0];

      while true
        invariant Frontier(mapping, source, sink, queue, visited, processed, parents, dist)
        decreases mapping.Keys - visited, |queue|
      {
        if queue == [] {
          if source != sink {
            FrontierExhausted(mapping, source, sink, visited, processed, parents, dist);
          }
          return false, parents, dist;
        }
        var current := queue[0];
        var rest := queue[1..];
        var queue', visited', parents', dist' := ScanNeighbours(source, sink, current, rest, visited, parents, dist);
        if sink in parents' {
          return true, parents', dist';
        }
        FrontierStep(mapping, source, sink, queue, visited, processed, parents, dist, queue', visited', parents', dist');
        queue, visited, parents, dist := queue', visited', parents', dist';
        processed := processed + {current};
      }
    }

    /** The `for` loop of `find_path` (graph.rs:136-145): give every unvisited vertex
        that `current` reaches over a positive edge its parent, and queue it, until the
        sink gets one. */
    method ScanNeighbours(source: Vertex, sink: Vertex, current: Vertex, queue: seq<Vertex>, visited: set<Vertex>,
                          parents: map<Vertex, Vertex>, ghost dist: map<Vertex, nat>)
      returns (queueOut: seq<Vertex>, visitedOut: set<Vertex>, parentsOut: map<Vertex, Vertex>, ghost distOut: map<Vertex, nat>)
      requires Symmetric(mapping) && current in visited && visited <= mapping.Keys
      requires ParentTree(mapping, source, parents, dist) && dist.Keys == visited && sink !in parents
      requires forall x :: x in queue ==> x in visited
      requires source != sink ==> sink !in visited
      ensures ParentTree(mapping, source, parentsOut, distOut)
      ensures forall w :: w in parents ==> w in parentsOut && parentsOut[w] == parents[w]
      ensures forall w :: w in parentsOut && w !in parents ==> parentsOut[w] == current
      ensures sink !in parentsOut ==>
        Scanned(mapping, source, sink, current, queue, visited, queueOut, visitedOut, distOut)
    {
      queueOut, visitedOut, parentsOut, distOut := queue, visited, parents, dist;
      var edges := mapping[current];
      var todo := edges.Keys;
      ScanStart(mapping, source, sink, current, queue, visited, parents, dist);
      while todo != {}
        invariant ScanState(mapping, source, sink, current, queue, visited, todo, queueOut, visitedOut, parentsOut, distOut)
        invariant ParentsExtended(parents, parentsOut, current)
        decreases todo
      {
        var next :| next in todo;
        if edges[next].ResidualCapacity() > 0 && next !in visitedOut {
          assert next !in parents;
          ParentsExtend(parents, parentsOut, current, next);
          if next == sink {
            TreeGrow(mapping, source, parentsOut, distOut, current, next);
            parentsOut := parentsOut[next := current];
            distOut := distOut[next := distOut[current] + 1];
            return;
          }
          ScanAdd(mapping, source, sink, current, queue, visited, todo, queueOut, visitedOut, parentsOut, distOut, next);
          parentsOut := parentsOut[next := current];
          distOut := distOut[next := distOut[current] + 1];
          visitedOut := visitedOut + {next};
          queueOut := queueOut + [next];
        } else {
          ScanSkip(mapping, source, sink, current, queue, visited, todo, queueOut, visitedOut, parentsOut, distOut, next);
        }
        todo := todo - {next};
      }
      ScanEnd(mapping, source, sink, current, queue, visited, queueOut, visitedOut, parentsOut, distOut);
    }

    /** The second loop of `find_path` (graph.rs:154-170): walk the parents back from the
        sink, lowering `max_flow` to each residual capacity met. */
    method ReadPath(source: Vertex, sink: Vertex, parents: map<Vertex, Vertex>, ghost dist: map<Vertex, nat>)
      returns (path: Path)
      requires ParentTree(mapping, source, parents, dist) && sink in parents
      ensures AugmentingPath(mapping, source, sink, path)
    {
      var maxFlow: nat := UsizeMax;
      var vertices: seq<Vertex> := [];
      var current := sink;
      while true
        invariant current in dist
        invariant ([current] + vertices)[|vertices|] == sink
        invariant IsPath(mapping, [current] + vertices) && Rising(dist, [current] + vertices)
        invariant maxFlow == MinResidual(mapping, [current] + vertices)
        decreases dist[current]
      {
        vertices := [current] + vertices;
        if current == source {
          break;
        }
        var parent := parents[current];
        PrependStep(mapping, dist, parent, vertices);
        maxFlow := Min(mapping[parent][current].ResidualCapacity(), maxFlow);
        current := parent;
      }
      MinResidualIsBottleneck(mapping, vertices);
      RisingDistinct(dist, vertices);
      path := Path(vertices, maxFlow);
    }
  }
}

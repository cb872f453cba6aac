/** Day 10 (day10/src/lib.rs): a grid of pipes holds one loop through the start cell `S`.
    `Map::new` replaces `S` by the pipe shape its neighbours imply, `iterate_over_path` walks
    the loop breadth-first one generation at a time, `find_furthest` counts the generations
    and `count_inside` counts the ground cells enclosed by the loop with a ray cast per row. */
module Day10 {
  import opened Wrappers

  /** A (row, column) position; `int` so that a step off the top or left edge (a `usize`
      underflow in the source) is an ordinary position outside the grid. */
  type Pos = (int, int)

  /** The map after `Map::new`: the rows of characters and the start position. */
  datatype Map = Map(rows: seq<seq<char>>, start: Pos)

  /** Every row has the length of the first one, which is not empty. */
  predicate Rectangular(rows: seq<seq<char>>) {
    |rows| >= 1 && |rows[0]| >= 1 && forall r :: 0 <= r < |rows| ==> |rows[r]| == |rows[0]|
  }

  predicate InGrid(rows: seq<seq<char>>, p: Pos) {
    0 <= p.0 < |rows| && 0 <= p.1 < |rows[p.0]|
  }

  function Grid(rows: seq<seq<char>>): (g: set<Pos>)
    ensures forall p :: p in g <==> InGrid(rows, p)
  {
    set r, c | 0 <= r < |rows| && 0 <= c < |rows[r]| :: (r, c)
  }

  // ---------------------------------------------------------------------------------
  // Pipes and the start shape
  // ---------------------------------------------------------------------------------

  datatype Dir = North | West | East | South

  function Opposite(d: Dir): Dir {
    match d
    case North => South
    case South => North
    case West => East
    case East => West
  }

  /** The pipe `c` has an opening towards `d`. */
  predicate Opens(c: char, d: Dir) {
    match d
    case North => c in "|LJ"
    case South => c in "|7F"
    case West => c in "-J7"
    case East => c in "-LF"
  }

  predicate IsPipe(c: char) {
    c in "-|LJ7F"
  }

  /** The character `Map::new` takes for the neighbour towards `d`, `'.'` beyond the edge. */
  function Neighbour(rows: seq<seq<char>>, p: Pos, d: Dir): char
    requires Rectangular(rows) && InGrid(rows, p)
  {
    match d
    case North => if p.0 == 0 then '.' else rows[p.0 - 1][p.1]
    case South => if p.0 == |rows| - 1 then '.' else rows[p.0 + 1][p.1]
    case West => if p.1 == 0 then '.' else rows[p.0][p.1 - 1]
    case East => if p.1 == |rows[0]| - 1 then '.' else rows[p.0][p.1 + 1]
  }

  /** The shape `Map::new` gives the start cell from its top, left, right and bottom
      neighbours, as written: the first rule that applies; `None` where the source reaches
      `unimplemented!()`. The straight shapes need a straight pipe on both sides. */
  function StartShapeAsWritten(top: char, left: char, right: char, bottom: char): Option<char> {
    if top == '|' && bottom == '|' then Some('|')
    else if left == '-' && right == '-' then Some('-')
    else if top in "|7F" && right in "-7J" then Some('L')
    else if top in "|7F" && left in "-LF" then Some('J')
    else if bottom in "|LJ" && left in "-LF" then Some('7')
    else if bottom in "|LJ" && right in "-7J" then Some('F')
    else None
  }

  /** The start shape as evidently intended: the rules as written, and where none of them
      applies, the straight shapes for every pair of pipes opening towards the start. */
  function StartShape(top: char, left: char, right: char, bottom: char): Option<char> {
    var written := StartShapeAsWritten(top, left, right, bottom);
    if written.Some? then written
    else if top in "|7F" && bottom in "|LJ" then Some('|')
    else if left in "-LF" && right in "-7J" then Some('-')
    else None
  }

  function Towards(d: Dir, top: char, left: char, right: char, bottom: char): char {
    match d
    case North => top
    case West => left
    case East => right
    case South => bottom
  }

  /** The inferred shape is a pipe, and each of its two openings faces a neighbour that
      opens back towards the start: the start joins the loop on both of its sides. */
  lemma StartShapeConnects(top: char, left: char, right: char, bottom: char)
    requires StartShape(top, left, right, bottom).Some?
    ensures var s := StartShape(top, left, right, bottom).value;
      && IsPipe(s)
      && forall d :: Opens(s, d) ==> Opens(Towards(d, top, left, right, bottom), Opposite(d))
  {
  }

  /** A start cell two of whose sides face pipes that open towards it gets a shape: no
      start on a loop reaches `unimplemented!()`. */
  lemma StartShapeComplete(top: char, left: char, right: char, bottom: char, d1: Dir, d2: Dir)
    requires d1 != d2
    requires Opens(Towards(d1, top, left, right, bottom), Opposite(d1))
    requires Opens(Towards(d2, top, left, right, bottom), Opposite(d2))
    ensures StartShape(top, left, right, bottom).Some?
  {
  }

  /** The loop `F7 / |S / LJ` passes through the start from top to bottom, yet the rules
      as written find no shape for it: the top neighbour is a `7`, not a `|`, and neither
      side neighbour suits a corner. */
  lemma StartShapeAsWrittenMissesStraight()
    ensures Opens('7', South) && Opens('J', North)
    ensures StartShapeAsWritten('7', '|', '.', 'J').None?
    ensures StartShape('7', '|', '.', 'J') == Some('|')
  {
  }

  /** Wherever the rules as written give a shape, it is the intended one, so it too joins
      the loop on both of its sides. */
  lemma StartShapeAsWrittenConnects(top: char, left: char, right: char, bottom: char)
    requires StartShapeAsWritten(top, left, right, bottom).Some?
    ensures StartShape(top, left, right, bottom) == StartShapeAsWritten(top, left, right, bottom)
    ensures var s := StartShapeAsWritten(top, left, right, bottom).value;
      && IsPipe(s)
      && forall d :: Opens(s, d) ==> Opens(Towards(d, top, left, right, bottom), Opposite(d))
  {
    StartShapeConnects(top, left, right, bottom);
  }

  /** `Map::new`: the grid with the start cell replaced by the shape the rules as written
      give it; `None` where they reach `unimplemented!()`. */
  function NewMap(lines: seq<seq<char>>, start: Pos): (r: Option<Map>)
    requires Rectangular(lines) && InGrid(lines, start)
    ensures r.Some? ==> r.value.start == start && Rectangular(r.value.rows)
    ensures r.Some? ==> |r.value.rows| == |lines|
    ensures r.Some? ==> forall p :: InGrid(lines, p) && p != start ==>
      InGrid(r.value.rows, p) && r.value.rows[p.0][p.1] == lines[p.0][p.1]
  {
    var shape := StartShapeAsWritten(Neighbour(lines, start, North), Neighbour(lines, start, West),
                                     Neighbour(lines, start, East), Neighbour(lines, start, South));
    if shape.None? then None
    else Some(Map(lines[start.0 := lines[start.0][start.1 := shape.value]], start))
  }

  /** `Map::new` writes at the start the shape its neighbours imply under the rules as
      written; it fails exactly when no rule applies. */
  lemma NewMapRewritesStart(lines: seq<seq<char>>, start: Pos)
    requires Rectangular(lines) && InGrid(lines, start)
    ensures var shape := StartShapeAsWritten(Neighbour(lines, start, North), Neighbour(lines, start, West),
                                             Neighbour(lines, start, East), Neighbour(lines, start, South));
      && (NewMap(lines, start).Some? <==> shape.Some?)
      && (shape.Some? ==> NewMap(lines, start).value.rows[start.0][start.1] == shape.value)
  {
  }

  // ---------------------------------------------------------------------------------
  // The start search of `parse_input`
  // ---------------------------------------------------------------------------------

  function IndexOf(line: seq<char>, c: char): (r: Option<nat>)
    ensures r.Some? ==> r.value < |line| && line[r.value] == c && c !in line[..r.value]
    ensures r.None? <==> c !in line
  {
    if line == [] then None
    else if line[0] == c then Some(0)
    else
      var rest := IndexOf(line[1..], c);
      assert line == [line[0]] + line[1..];
      if rest.None? then None else Some(rest.value + 1)
  }

  /** The start position read from `lines`: the first `S` of the last line that has one. */
  function StartOf(lines: seq<seq<char>>): Pos
    decreases |lines|
  {
    if lines == [] then (0, 0)
    else
      var last := |lines| - 1;
      var index := IndexOf(lines[last], 'S');
      if index.Some? then (last, index.value) else StartOf(lines[..last])
  }

  /** The start is on the last line holding an `S`, at its first `S`; without any `S` it
      is (0, 0). */
  lemma {:induction false} StartOfFindsS(lines: seq<seq<char>>)
    ensures var (r, c) := StartOf(lines);
      if exists k :: 0 <= k < |lines| && 'S' in lines[k] then
        && 0 <= r < |lines| && 0 <= c < |lines[r]| && lines[r][c] == 'S' && 'S' !in lines[r][..c]
        && forall k :: r < k < |lines| ==> 'S' !in lines[k]
      else (r, c) == (0, 0)
    decreases |lines|
  {
    if lines != [] {
      var last := |lines| - 1;
      var init := lines[..last];
      if 'S' !in lines[last] {
        StartOfFindsS(init);
        if exists k :: 0 <= k < |lines| && 'S' in lines[k] {
          var k :| 0 <= k < |lines| && 'S' in lines[k];
          assert init[k] == lines[k];
        } else {
          forall k | 0 <= k < |init| ensures 'S' !in init[k] {
            assert init[k] == lines[k];
          }
        }
      }
    }
  }

  /** The loop of `parse_input` that remembers where it last saw an `S`. */
  method FindStart(lines: seq<seq<char>>) returns (start: Pos)
    ensures start == StartOf(lines)
  {
    start := (0, 0);
    for row := 0 to |lines|
      invariant start == StartOf(lines[..row])
    {
      var index := IndexOf(lines[row], 'S');
      assert lines[..row + 1][..row] == lines[..row];
      if index.Some? {
        start := (row, index.value);
      }
    }
    assert lines[..|lines|] == lines;
  }

  /** On a rectangular grid the start found is a cell of the grid. */
  lemma StartOfInGrid(lines: seq<seq<char>>)
    requires Rectangular(lines)
    ensures InGrid(lines, StartOf(lines))
  {
    StartOfFindsS(lines);
  }

  /** `parse_input` over the lines already read: find the start, then build the map. */
  method ParseInput(lines: seq<seq<char>>) returns (r: Option<Map>)
    requires Rectangular(lines)
    ensures InGrid(lines, StartOf(lines)) && r == NewMap(lines, StartOf(lines))
  {
    var start := FindStart(lines);
    StartOfInGrid(lines);
    r := NewMap(lines, start);
  }

  // ---------------------------------------------------------------------------------
  // Walking the loop
  // ---------------------------------------------------------------------------------

  /** The two cells the pipe `c` at `p` leads to; none for a character that is not a pipe. */
  function PipeNeighbours(c: char, p: Pos): set<Pos> {
    var (row, col) := p;
    match c
    case '-' => {(row, col - 1), (row, col + 1)}
    case '|' => {(row - 1, col), (row + 1, col)}
    case 'L' => {(row - 1, col), (row, col + 1)}
    case 'J' => {(row - 1, col), (row, col - 1)}
    case '7' => {(row + 1, col), (row, col - 1)}
    case 'F' => {(row + 1, col), (row, col + 1)}
    case _ => {}
  }

  /** The pipe at `p` leads exactly towards its openings. */
  lemma PipeNeighboursFollowOpenings(c: char, p: Pos, q: Pos)
    requires IsPipe(c)
    ensures q in PipeNeighbours(c, p) <==>
      (Opens(c, North) && q == (p.0 - 1, p.1)) || (Opens(c, South) && q == (p.0 + 1, p.1)) ||
      (Opens(c, West) && q == (p.0, p.1 - 1)) || (Opens(c, East) && q == (p.0, p.1 + 1))
  {
  }

  /** Every cell the cells of `s` in the grid lead to. */
  function Neighbours(rows: seq<seq<char>>, s: set<Pos>): set<Pos> {
    set p, q | p in s && InGrid(rows, p) && q in PipeNeighbours(rows[p.0][p.1], p) :: q
  }

  /** The cells within `k` steps of the start. */
  function Reach(rows: seq<seq<char>>, start: Pos, k: nat): set<Pos> {
    if k == 0 then {start}
    else Reach(rows, start, k - 1) + Neighbours(rows, Reach(rows, start, k - 1))
  }

  /** The cells exactly `k` steps away from the start. */
  function Layer(rows: seq<seq<char>>, start: Pos, k: nat): set<Pos> {
    if k == 0 then {start} else Reach(rows, start, k) - Reach(rows, start, k - 1)
  }

  /** Every cell of `s` is in the grid and holds a pipe (otherwise the source panics). */
  predicate Walkable(rows: seq<seq<char>>, s: set<Pos>) {
    forall p :: p in s ==> InGrid(rows, p) && IsPipe(rows[p.0][p.1])
  }

  lemma NeighboursUnion(rows: seq<seq<char>>, a: set<Pos>, b: set<Pos>)
    ensures Neighbours(rows, a + b) == Neighbours(rows, a) + Neighbours(rows, b)
  {
    forall q | q in Neighbours(rows, a + b) ensures q in Neighbours(rows, a) + Neighbours(rows, b) {
      var p :| p in a + b && InGrid(rows, p) && q in PipeNeighbours(rows[p.0][p.1], p);
      if p in a {
        assert q in Neighbours(rows, a);
      } else {
        assert q in Neighbours(rows, b);
      }
    }
  }

  lemma NeighboursOne(rows: seq<seq<char>>, p: Pos)
    requires InGrid(rows, p)
    ensures Neighbours(rows, {p}) == PipeNeighbours(rows[p.0][p.1], p)
  {
  }

  lemma ReachGrows(rows: seq<seq<char>>, start: Pos, k: nat)
    ensures k >= 1 ==> Reach(rows, start, k) == Reach(rows, start, k - 1) + Layer(rows, start, k)
  {
  }

  /** The next generation is the neighbours of the current one that are not yet reached:
      the cells `k + 1` steps away from the start. */
  lemma {:induction false} NextLayer(rows: seq<seq<char>>, start: Pos, k: nat)
    ensures Layer(rows, start, k + 1) == Neighbours(rows, Layer(rows, start, k)) - Reach(rows, start, k)
  {
    if k >= 1 {
      var before := Reach(rows, start, k - 1);
      var layer := Layer(rows, start, k);
      assert Reach(rows, start, k) == before + layer;
      NeighboursUnion(rows, before, layer);
      assert Neighbours(rows, before) <= Reach(rows, start, k);
    }
  }

  /** Once a generation is empty every later one is. */
  lemma {:induction false} LayerEmptyStays(rows: seq<seq<char>>, start: Pos, k: nat, j: nat)
    requires Layer(rows, start, k) == {} && k <= j
    ensures Layer(rows, start, j) == {}
    decreases j - k
  {
    if k < j {
      NextLayer(rows, start, k);
      assert Neighbours(rows, {}) == {};
      LayerEmptyStays(rows, start, k + 1, j);
    }
  }

  /** The state of `iterate_over_path` at the head of its loop after the generations
      `gens` have been handed to the action: `known` holds the cells already visited and
      `generation` the cells `|gens|` steps away. */
  ghost predicate Walked(rows: seq<seq<char>>, start: Pos, gens: seq<set<Pos>>,
                         generation: set<Pos>, known: set<Pos>)
  {
    && (forall k :: 0 <= k < |gens| ==> gens[k] == Layer(rows, start, k) && gens[k] != {})
    && (forall k :: 0 <= k < |gens| ==> Walkable(rows, gens[k]))
    && generation == Layer(rows, start, |gens|)
    && known == (if gens == [] then {start} else Reach(rows, start, |gens| - 1))
    && known <= Grid(rows)
  }

  /** The cells of `generation` visited so far are walkable, and `found` holds where they
      lead. */
  ghost predicate Visiting(rows: seq<seq<char>>, generation: set<Pos>, todo: set<Pos>,
                           found: set<Pos>)
  {
    && todo <= generation
    && Walkable(rows, generation - todo)
    && found == Neighbours(rows, generation - todo)
  }

  lemma VisitStep(rows: seq<seq<char>>, generation: set<Pos>, todo: set<Pos>, found: set<Pos>, p: Pos)
    requires Visiting(rows, generation, todo, found)
    requires p in todo && InGrid(rows, p) && IsPipe(rows[p.0][p.1])
    ensures Visiting(rows, generation, todo - {p}, found + PipeNeighbours(rows[p.0][p.1], p))
  {
    assert generation - (todo - {p}) == (generation - todo) + {p};
    NeighboursUnion(rows, generation - todo, {p});
    NeighboursOne(rows, p);
  }

  lemma LayersExtend(rows: seq<seq<char>>, start: Pos, gens: seq<set<Pos>>, generation: set<Pos>)
    requires forall k :: 0 <= k < |gens| ==> gens[k] == Layer(rows, start, k) && gens[k] != {}
    requires forall k :: 0 <= k < |gens| ==> Walkable(rows, gens[k])
    requires generation == Layer(rows, start, |gens|) && generation != {} && Walkable(rows, generation)
    ensures forall k :: 0 <= k < |gens| + 1 ==>
      (gens + [generation])[k] == Layer(rows, start, k) && (gens + [generation])[k] != {}
    ensures forall k :: 0 <= k < |gens| + 1 ==> Walkable(rows, (gens + [generation])[k])
  {
    forall k | 0 <= k < |gens| + 1
      ensures (gens + [generation])[k] == Layer(rows, start, k) && (gens + [generation])[k] != {}
      ensures Walkable(rows, (gens + [generation])[k])
    {
      if k < |gens| {
        assert (gens + [generation])[k] == gens[k];
      } else {
        assert (gens + [generation])[k] == generation;
      }
    }
  }

  /** After a generation is visited, the known cells are those within `|gens|` steps. */
  lemma VisitedReach(rows: seq<seq<char>>, start: Pos, gens: seq<set<Pos>>, generation: set<Pos>,
                     known: set<Pos>)
    requires Walked(rows, start, gens, generation, known)
    ensures known + generation == Reach(rows, start, |gens|)
    ensures gens != [] ==> generation !! known
  {
    if gens != [] {
      ReachGrows(rows, start, |gens|);
    }
  }

  lemma WalkStep(rows: seq<seq<char>>, start: Pos, gens: seq<set<Pos>>, generation: set<Pos>,
                 known: set<Pos>, found: set<Pos>)
    requires Walked(rows, start, gens, generation, known) && generation != {}
    requires Walkable(rows, generation) && found == Neighbours(rows, generation)
    ensures Walked(rows, start, gens + [generation], found - (known + generation), known + generation)
  {
    var k := |gens|;
    VisitedReach(rows, start, gens, generation, known);
    NextLayer(rows, start, k);
    LayersExtend(rows, start, gens, generation);
    var gens', known' := gens + [generation], known + generation;
    assert found - known' == Layer(rows, start, |gens'|);
    assert known' == Reach(rows, start, |gens'| - 1);
    assert known' <= Grid(rows);
  }

  /** Each generation but the first adds unknown cells of the grid. */
  lemma WalkProgress(rows: seq<seq<char>>, start: Pos, gens: seq<set<Pos>>, generation: set<Pos>,
                     known: set<Pos>)
    requires Walked(rows, start, gens, generation, known) && generation != {}
    requires gens != [] && Walkable(rows, generation)
    ensures |Grid(rows) - (known + generation)| < |Grid(rows) - known|
  {
    VisitedReach(rows, start, gens, generation, known);
    assert Grid(rows) - (known + generation) < Grid(rows) - known;
  }

  /** The `for` loop of `iterate_over_path` over one generation: where its cells lead;
      `None` where the source panics on a cell off the grid or not a pipe. */
  method Visit(rows: seq<seq<char>>, generation: set<Pos>) returns (r: Option<set<Pos>>)
    ensures r.Some? <==> Walkable(rows, generation)
    ensures r.Some? ==> r.value == Neighbours(rows, generation)
  {
    var todo := generation;
    var found: set<Pos> := {};
    while todo != {}
      invariant Visiting(rows, generation, todo, found)
      decreases |todo|
    {
      var p :| p in todo;
      if !InGrid(rows, p) || !IsPipe(rows[p.0][p.1]) {
        return None;
      }
      VisitStep(rows, generation, todo, found, p);
      found := found + PipeNeighbours(rows[p.0][p.1], p);
      todo := todo - {p};
    }
    assert generation - {} == generation;
    return Some(found);
  }

  /** `iterate_over_path`: the generations of the walk from the start, each handed to the
      action in turn; `None` where the source panics because the walk leaves the grid or
      meets a cell that is not a pipe. The first generation is the start alone, each later
      one the cells its predecessor leads to that are not yet known; the walk ends when a
      generation is empty. */
  method IterateOverPath(rows: seq<seq<char>>, start: Pos) returns (r: Option<seq<set<Pos>>>)
    requires InGrid(rows, start)
    ensures r.Some? ==> |r.value| >= 1 && Layer(rows, start, |r.value|) == {}
    ensures r.Some? ==> forall k :: 0 <= k < |r.value| ==>
      r.value[k] == Layer(rows, start, k) && r.value[k] != {} && Walkable(rows, r.value[k])
    ensures r.None? ==> exists k: nat :: !Walkable(rows, Layer(rows, start, k))
  {
    var known: set<Pos> := {start};
    var generation: set<Pos> := {start};
    var gens: seq<set<Pos>> := [];
    while generation != {}
      invariant Walked(rows, start, gens, generation, known)
      decreases |Grid(rows) - known| + (if gens == [] then 1 else 0)
    {
      var found := Visit(rows, generation);
      if found.None? {
        assert !Walkable(rows, Layer(rows, start, |gens|));
        return None;
      }
      WalkStep(rows, start, gens, generation, known, found.value);
      if gens != [] {
        WalkProgress(rows, start, gens, generation, known);
      }
      known := known + generation;
      gens := gens + [generation];
      generation := found.value - known;
    }
    return Some(gens);
  }

  /** A walk whose generation `n + 1` is empty and whose earlier generations are walkable
      never panics and has no generation after `n`. */
  lemma WalkEnds(rows: seq<seq<char>>, start: Pos, gens: seq<set<Pos>>)
    requires |gens| >= 1 && Layer(rows, start, |gens|) == {}
    requires forall k :: 0 <= k < |gens| ==> gens[k] == Layer(rows, start, k) && Walkable(rows, gens[k])
    ensures forall j: nat :: j >= |gens| ==> Layer(rows, start, j) == {}
    ensures forall k: nat :: Walkable(rows, Layer(rows, start, k))
  {
    forall j: nat | j >= |gens| ensures Layer(rows, start, j) == {} {
      LayerEmptyStays(rows, start, |gens|, j);
    }
    forall k: nat ensures Walkable(rows, Layer(rows, start, k)) {
      if k >= |gens| {
        LayerEmptyStays(rows, start, |gens|, k);
      } else {
        assert gens[k] == Layer(rows, start, k);
      }
    }
  }

  /** `find_furthest`: the number of generations less one, which is the largest number of
      steps from the start to a cell of the loop. */
  method FindFurthest(m: Map) returns (r: Option<nat>)
    requires InGrid(m.rows, m.start)
    ensures r.Some? ==> Layer(m.rows, m.start, r.value) != {}
    ensures r.Some? ==> forall j: nat :: j > r.value ==> Layer(m.rows, m.start, j) == {}
    ensures r.None? <==> exists k: nat :: !Walkable(m.rows, Layer(m.rows, m.start, k))
  {
    var gens := IterateOverPath(m.rows, m.start);
    if gens.None? {
      return None;
    }
    WalkEnds(m.rows, m.start, gens.value);
    return Some(|gens.value| - 1);
  }

  // ---------------------------------------------------------------------------------
  // Ray casting
  // ---------------------------------------------------------------------------------

  /** The variables of `apply_raycast`: the last corner or wall seen, whether the ray is
      inside the loop, and the ground cells counted. */
  datatype Ray = Ray(prev: char, inside: bool, count: nat)

  /** One character of the row: ground counts while inside; `|`, `F` and `L` flip the
      side; `J` flips unless it closes an `F`, `7` unless it closes an `L`. */
  function RayStep(s: Ray, ch: char): Ray {
    if ch == '.' && s.inside then s.(count := s.count + 1)
    else if ch == '|' || ch == 'F' || ch == 'L' then s.(prev := ch, inside := !s.inside)
    else if ch == 'J' then Ray('J', if s.prev != 'F' then !s.inside else s.inside, s.count)
    else if ch == '7' then Ray('7', if s.prev != 'L' then !s.inside else s.inside, s.count)
    else s
  }

  /** The ray after crossing `row` from the left. */
  function Cast(row: seq<char>): Ray {
    if row == [] then Ray('.', false, 0) else RayStep(Cast(row[..|row| - 1]), row[|row| - 1])
  }

  method ApplyRaycast(row: seq<char>) returns (count: nat)
    ensures count == Cast(row).count
  {
    var prev := '.';
    var inside := false;
    count := 0;
    for i := 0 to |row|
      invariant Cast(row[..i]) == Ray(prev, inside, count)
    {
      var ch := row[i];
      assert row[..i + 1][..i] == row[..i];
      if ch == '.' && inside {
        count := count + 1;
      } else if ch == '|' || ch == 'F' || ch == 'L' {
        prev, inside := ch, !inside;
      } else if ch == 'J' {
        if prev != 'F' {
          inside := !inside;
        }
        prev := 'J';
      } else if ch == '7' {
        if prev != 'L' {
          inside := !inside;
        }
        prev := '7';
      }
    }
    assert row[..|row|] == row;
  }

  function Dots(row: seq<char>): nat {
    if row == [] then 0 else Dots(row[..|row| - 1]) + if row[|row| - 1] == '.' then 1 else 0
  }

  /** Only ground cells are counted. */
  lemma {:induction false} CastCountsDots(row: seq<char>)
    ensures Cast(row).count <= Dots(row)
  {
    if row != [] {
      CastCountsDots(row[..|row| - 1]);
    }
  }

  /** A ground cell is counted exactly when the ray is inside when it reaches it. */
  lemma CastCountsInside(row: seq<char>, ch: char)
    ensures Cast(row + [ch]).count ==
      Cast(row).count + if ch == '.' && Cast(row).inside then 1 else 0
  {
    assert (row + [ch])[..|row|] == row;
  }

  /** A run of horizontal pipe. */
  function Dashes(n: nat): seq<char> {
    if n == 0 then [] else Dashes(n - 1) + ['-']
  }

  lemma {:induction false} DashesKeepRay(row: seq<char>, n: nat)
    ensures Cast(row + Dashes(n)) == Cast(row)
  {
    if n > 0 {
      DashesKeepRay(row, n - 1);
      var init := row + Dashes(n - 1);
      assert row + Dashes(n) == init + ['-'];
      var whole := init + ['-'];
      assert whole[..|whole| - 1] == init && whole[|whole| - 1] == '-';
      assert Cast(whole) == RayStep(Cast(init), '-');
    } else {
      assert row + Dashes(n) == row;
    }
  }

  /** Cast of a row that ends with the corner `a`, a run of `n` dashes and the corner `b`. */
  lemma Bend(row: seq<char>, a: char, n: nat, b: char)
    requires a == 'F' || a == 'L'
    ensures Cast(row + [a] + Dashes(n) + [b]) == RayStep(RayStep(Cast(row), a), b)
  {
    DashesKeepRay(row + [a], n);
    assert (row + [a] + Dashes(n) + [b])[..|row + [a] + Dashes(n)|] == row + [a] + Dashes(n);
    assert (row + [a])[..|row|] == row;
  }

  /** Walking along a wall that turns back (`F-7`, `L-J`) leaves the ray on the same side;
      one that crosses the row (`F-J`, `L-7`), like a `|`, takes it to the other side. */
  lemma CrossingsFlipInside(row: seq<char>, n: nat)
    ensures Cast(row + ['F'] + Dashes(n) + ['7']).inside == Cast(row).inside
    ensures Cast(row + ['L'] + Dashes(n) + ['J']).inside == Cast(row).inside
    ensures Cast(row + ['F'] + Dashes(n) + ['J']).inside == !Cast(row).inside
    ensures Cast(row + ['L'] + Dashes(n) + ['7']).inside == !Cast(row).inside
    ensures Cast(row + ['|']).inside == !Cast(row).inside
  {
    Bend(row, 'F', n, '7');
    Bend(row, 'L', n, 'J');
    Bend(row, 'F', n, 'J');
    Bend(row, 'L', n, '7');
    assert (row + ['|'])[..|row|] == row;
  }

  /** The ray after the first `k` characters of `row`, starting from `s`. */
  function CastFrom(s: Ray, row: seq<char>, k: nat): Ray
    requires k <= |row|
  {
    if k == 0 then s else RayStep(CastFrom(s, row, k - 1), row[k - 1])
  }

  lemma {:induction false} CastFromPrefix(a: seq<char>, b: seq<char>, k: nat)
    requires k <= |b|
    ensures Cast(a + b[..k]) == CastFrom(Cast(a), b, k)
  {
    if k == 0 {
      assert a + b[..k] == a;
    } else {
      CastFromPrefix(a, b, k - 1);
      var w := a + b[..k];
      assert w[..|w| - 1] == a + b[..k - 1];
    }
  }

  /** The ray over `a + b` continues from where the ray over `a` stops. */
  lemma CastConcat(a: seq<char>, b: seq<char>)
    ensures Cast(a + b) == CastFrom(Cast(a), b, |b|)
  {
    CastFromPrefix(a, b, |b|);
    assert b[..|b|] == b;
  }

  lemma RaycastExamplesShort()
    ensures Cast(".F-7.").count == 0
    ensures Cast(".|.|.").count == 1
    ensures Cast("SJ.L7").count == 1
    ensures Cast(".FJ|.").count == 0
    ensures Cast("|F--J").count == 0
  {
    CastConcat([], ".F-7.");
    assert [] + ".F-7." == ".F-7.";
    assert CastFrom(Ray('.', false, 0), ".F-7.", 5) == Ray('7', false, 0);
    CastConcat([], ".|.|.");
    assert [] + ".|.|." == ".|.|.";
    assert CastFrom(Ray('.', false, 0), ".|.|.", 5) == Ray('|', false, 1);
    CastConcat([], "SJ.L7");
    assert [] + "SJ.L7" == "SJ.L7";
    assert CastFrom(Ray('.', false, 0), "SJ.L7", 5) == Ray('7', false, 1);
    CastConcat([], ".FJ|.");
    assert [] + ".FJ|." == ".FJ|.";
    assert CastFrom(Ray('.', false, 0), ".FJ|.", 5) == Ray('|', false, 0);
    CastConcat([], "|F--J");
    assert [] + "|F--J" == "|F--J";
    assert CastFrom(Ray('.', false, 0), "|F--J", 5) == Ray('J', false, 0);
  }

  lemma RaycastExampleLong1()
    ensures Cast("FJL7L7LJLJ||LJ.L-7..").count == 1
  {
    assert "FJL7L7LJLJ||LJ.L-7.." == [] + "FJL7L7LJLJ" + "||LJ.L-7..";
    CastConcat([], "FJL7L7LJLJ");
    assert CastFrom(Ray('.', false, 0), "FJL7L7LJLJ", 10) == Ray('J', true, 0);
    CastConcat([] + "FJL7L7LJLJ", "||LJ.L-7..");
    assert CastFrom(Ray('J', true, 0), "||LJ.L-7..", 10) == Ray('7', false, 1);
  }

  lemma RaycastExampleLong2()
    ensures Cast("L--J.L7...LJF7F-7L7.").count == 3
  {
    assert "L--J.L7...LJF7F-7L7." == [] + "L--J.L7..." + "LJF7F-7L7.";
    CastConcat([], "L--J.L7...");
    assert CastFrom(Ray('.', false, 0), "L--J.L7...", 10) == Ray('7', true, 3);
    CastConcat([] + "L--J.L7...", "LJF7F-7L7.");
    assert CastFrom(Ray('7', true, 3), "LJF7F-7L7.", 10) == Ray('7', false, 3);
  }

  lemma RaycastExampleLong3()
    ensures Cast("L---JF-JLJ....FJLJ..").count == 4
  {
    assert "L---JF-JLJ....FJLJ.." == [] + "L---JF-JLJ" + "....FJLJ..";
    CastConcat([], "L---JF-JLJ");
    assert CastFrom(Ray('.', false, 0), "L---JF-JLJ", 10) == Ray('J', true, 0);
    CastConcat([] + "L---JF-JLJ", "....FJLJ..");
    assert CastFrom(Ray('J', true, 0), "....FJLJ..", 10) == Ray('J', false, 4);
  }

  // ---------------------------------------------------------------------------------
  // Counting the enclosed cells
  // ---------------------------------------------------------------------------------

  /** The map of `count_inside`: every cell of `loop` keeps its pipe, every other cell is
      ground. */
  function Blanked(rows: seq<seq<char>>, loop: set<Pos>): (b: seq<seq<char>>)
    requires Rectangular(rows)
    ensures |b| == |rows| && forall r :: 0 <= r < |b| ==> |b[r]| == |rows[0]|
  {
    seq(|rows|, r requires 0 <= r < |rows| =>
      seq(|rows[0]|, c requires 0 <= c < |rows[0]| => if (r, c) in loop then rows[r][c] else '.'))
  }

  function SumCounts(map_: seq<seq<char>>): nat {
    if map_ == [] then 0 else SumCounts(map_[..|map_| - 1]) + Cast(map_[|map_| - 1]).count
  }

  function UnionOf(gens: seq<set<Pos>>): set<Pos> {
    if gens == [] then {} else UnionOf(gens[..|gens| - 1]) + gens[|gens| - 1]
  }

  /** The generations of the walk together are the cells reached from the start. */
  lemma {:induction false} UnionOfLayers(rows: seq<seq<char>>, start: Pos, gens: seq<set<Pos>>)
    requires |gens| >= 1 && forall k :: 0 <= k < |gens| ==> gens[k] == Layer(rows, start, k)
    ensures UnionOf(gens) == Reach(rows, start, |gens| - 1)
    decreases |gens|
  {
    if |gens| > 1 {
      var init := gens[..|gens| - 1];
      UnionOfLayers(rows, start, init);
      ReachGrows(rows, start, |gens| - 1);
    }
  }

  /** Copying one more cell of the loop into the map. */
  lemma BlankedMark(rows: seq<seq<char>>, marked: set<Pos>, p: Pos)
    requires Rectangular(rows) && InGrid(rows, p)
    ensures var b := Blanked(rows, marked);
      b[p.0 := b[p.0][p.1 := rows[p.0][p.1]]] == Blanked(rows, marked + {p})
  {
    var b := Blanked(rows, marked);
    var b' := Blanked(rows, marked + {p});
    var u := b[p.0 := b[p.0][p.1 := rows[p.0][p.1]]];
    forall r | 0 <= r < |rows| ensures u[r] == b'[r] {
      if r == p.0 {
        assert u[r] == b[r][p.1 := rows[p.0][p.1]];
      }
    }
  }

  /** The action of `count_inside`, over one generation: copy its cells from `rows`. */
  method Mark(rows: seq<seq<char>>, map_: seq<seq<char>>, generation: set<Pos>, ghost marked: set<Pos>)
    returns (r: seq<seq<char>>)
    requires Rectangular(rows) && Walkable(rows, generation)
    requires map_ == Blanked(rows, marked)
    ensures r == Blanked(rows, marked + generation)
  {
    r := map_;
    var todo := generation;
    assert marked + (generation - todo) == marked;
    while todo != {}
      invariant todo <= generation
      invariant r == Blanked(rows, marked + (generation - todo))
      decreases |todo|
    {
      var p :| p in todo;
      ghost var next := marked + (generation - (todo - {p}));
      assert next == marked + (generation - todo) + {p};
      BlankedMark(rows, marked + (generation - todo), p);
      r := r[p.0 := r[p.0][p.1 := rows[p.0][p.1]]];
      todo := todo - {p};
    }
    assert generation - {} == generation;
  }

  /** `iterate_over_path` with the action of `count_inside`: copy every generation. */
  method MarkAll(rows: seq<seq<char>>, map_: seq<seq<char>>, gens: seq<set<Pos>>) returns (r: seq<seq<char>>)
    requires Rectangular(rows) && forall k :: 0 <= k < |gens| ==> Walkable(rows, gens[k])
    requires map_ == Blanked(rows, {})
    ensures r == Blanked(rows, UnionOf(gens))
  {
    r := map_;
    for i := 0 to |gens|
      invariant r == Blanked(rows, UnionOf(gens[..i]))
    {
      assert gens[..i + 1][..i] == gens[..i];
      r := Mark(rows, r, gens[i], UnionOf(gens[..i]));
    }
    assert gens[..|gens|] == gens;
  }

  method SumRaycasts(map_: seq<seq<char>>) returns (total: nat)
    ensures total == SumCounts(map_)
  {
    total := 0;
    for r := 0 to |map_|
      invariant total == SumCounts(map_[..r])
    {
      var count := ApplyRaycast(map_[r]);
      assert map_[..r + 1][..r] == map_[..r];
      total := total + count;
    }
    assert map_[..|map_|] == map_;
  }

  /** `count_inside`: the ground cells of each row that the ray finds inside the loop,
      on the map where every cell off the loop is ground. */
  method CountInside(m: Map) returns (r: Option<nat>)
    requires Rectangular(m.rows) && InGrid(m.rows, m.start)
    ensures r.Some? ==> exists n: nat ::
      && Layer(m.rows, m.start, n + 1) == {}
      && r.value == SumCounts(Blanked(m.rows, Reach(m.rows, m.start, n)))
    ensures r.None? <==> exists k: nat :: !Walkable(m.rows, Layer(m.rows, m.start, k))
  {
    var map_ := Blanked(m.rows, {});
    var gens := IterateOverPath(m.rows, m.start);
    if gens.None? {
      return None;
    }
    var g := gens.value;
    map_ := MarkAll(m.rows, map_, g);
    UnionOfLayers(m.rows, m.start, g);
    WalkEnds(m.rows, m.start, g);
    var total := SumRaycasts(map_);
    assert Layer(m.rows, m.start, |g| - 1 + 1) == {};
    return Some(total);
  }
}

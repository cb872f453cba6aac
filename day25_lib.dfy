/** `read_problem` of day 25 (day25/src/lib.rs): each input line `orig: d1 d2 ...` adds an
    undirected edge from `orig` to every destination; the origins of the first two lines
    are the source and the sink of the flow problem. */
module Day25Lib {
  import opened Wrappers
  import opened Strings
  import opened Day25Graph

  /** The index of the first ": " at or after `k` in `line`. */
  function SeparatorFrom(line: string, k: nat): (r: Option<nat>)
    ensures r.Some? ==> k <= r.value && r.value + 2 <= |line|
    decreases |line| - k
  {
    if k + 2 > |line| then None
    else if line[k] == ':' && line[k + 1] == ' ' then Some(k)
    else SeparatorFrom(line, k + 1)
  }

  /** The index of the first ": " in `line`, as `split_once(": ")` finds it. */
  function Separator(line: string): Option<nat> {
    SeparatorFrom(line, 0)
  }

  /** A ": " starts at index `i` of `line`. */
  predicate SeparatorAt(line: string, i: int) {
    0 <= i && i + 1 < |line| && line[i] == ':' && line[i + 1] == ' '
  }

  /** The search from `k` finds the first ": " at or after `k`, and finds none when there is
      none. */
  lemma {:induction false} SeparatorFromFirst(line: string, k: nat)
    ensures var r := SeparatorFrom(line, k);
      && (r.Some? ==> k <= r.value && SeparatorAt(line, r.value))
      && (r.Some? ==> forall i :: k <= i < r.value ==> !SeparatorAt(line, i))
      && (r.None? ==> forall i :: k <= i ==> !SeparatorAt(line, i))
    decreases |line| - k
  {
    if k + 2 <= |line| && !SeparatorAt(line, k) {
      SeparatorFromFirst(line, k + 1);
    }
  }

  /** `split_once(": ")` splits at the first ": " of the line, and fails when it has none. */
  lemma SeparatorFirst(line: string)
    ensures Separator(line).Some? ==> SeparatorAt(line, Separator(line).value)
    ensures Separator(line).Some? ==> forall i :: 0 <= i < Separator(line).value ==> !SeparatorAt(line, i)
    ensures Separator(line).None? <==> forall i :: 0 <= i ==> !SeparatorAt(line, i)
  {
    SeparatorFromFirst(line, 0);
  }

  /** The line holds ": ", as the `unwrap` of `split_once` in `read_problem` demands. */
  predicate WellFormedLine(line: string) {
    Separator(line).Some?
  }

  /** The text before the first ": " (the first half of `split_once(": ")`). */
  function Origin(line: string): Vertex
    requires WellFormedLine(line)
  {
    line[..Separator(line).value]
  }

  /** `destinations.trim().split_whitespace()` on the text after the first ": ". */
  function Destinations(line: string): seq<Vertex>
    requires WellFormedLine(line)
  {
    SplitWhitespace(Trim(line[Separator(line).value + 2..]))
  }

  /** The graph after `add_edge(orig, d)` for each destination `d` in turn. */
  function AddEdges(m: Mapping, orig: Vertex, dests: seq<Vertex>): Mapping
    decreases |dests|
  {
    if dests == [] then m
    else WithEdge(AddEdges(m, orig, dests[..|dests| - 1]), orig, dests[|dests| - 1])
  }

  /** The graph after every line has been read, starting from `m`. */
  function Build(m: Mapping, lines: seq<string>): Mapping
    requires forall i :: 0 <= i < |lines| ==> WellFormedLine(lines[i])
    decreases |lines|
  {
    if lines == [] then m
    else
      var last := lines[|lines| - 1];
      AddEdges(Build(m, lines[..|lines| - 1]), Origin(last), Destinations(last))
  }

  /** Line `line` names the undirected pair {a, b}. */
  ghost predicate Names(line: string, a: Vertex, b: Vertex)
    requires WellFormedLine(line)
  {
    (a == Origin(line) && b in Destinations(line)) || (b == Origin(line) && a in Destinations(line))
  }

  /** Some line of `lines` names the pair {a, b}. */
  ghost predicate Listed(lines: seq<string>, a: Vertex, b: Vertex)
    requires forall i :: 0 <= i < |lines| ==> WellFormedLine(lines[i])
  {
    exists i :: 0 <= i < |lines| && Names(lines[i], a, b)
  }

  lemma {:induction false} AddEdgesKeepsResidual(m: Mapping, orig: Vertex, dests: seq<Vertex>)
    requires ResidualGraph(m)
    ensures ResidualGraph(AddEdges(m, orig, dests))
    decreases |dests|
  {
    if dests != [] {
      var init := dests[..|dests| - 1];
      AddEdgesKeepsResidual(m, orig, init);
      WithEdgeKeepsResidual(AddEdges(m, orig, init), orig, dests[|dests| - 1]);
    }
  }

  /** Every vertex and edge of the graph `add_edge` builds comes from the destinations,
      and every named pair is an edge in both directions. */
  lemma {:induction false} AddEdgesShape(m: Mapping, orig: Vertex, dests: seq<Vertex>)
    ensures var r := AddEdges(m, orig, dests);
      && (forall x :: x in r <==> x in m || (dests != [] && x == orig) || x in dests)
      && (forall a, b :: HasEdge(r, a, b) <==>
            HasEdge(m, a, b) || (a == orig && b in dests) || (b == orig && a in dests))
    decreases |dests|
  {
    if dests != [] {
      var init := dests[..|dests| - 1];
      AddEdgesShape(m, orig, init);
      assert dests == init + [dests[|dests| - 1]];
    }
  }

  /** Reading the lines gives a residual graph (all edges fresh, in symmetric pairs). */
  lemma {:induction false} BuildKeepsResidual(m: Mapping, lines: seq<string>)
    requires forall i :: 0 <= i < |lines| ==> WellFormedLine(lines[i])
    requires ResidualGraph(m)
    ensures ResidualGraph(Build(m, lines))
    decreases |lines|
  {
    if lines != [] {
      var last := lines[|lines| - 1];
      BuildKeepsResidual(m, lines[..|lines| - 1]);
      AddEdgesKeepsResidual(Build(m, lines[..|lines| - 1]), Origin(last), Destinations(last));
    }
  }

  lemma ListedSnoc(lines: seq<string>, a: Vertex, b: Vertex)
    requires |lines| >= 1 && forall i :: 0 <= i < |lines| ==> WellFormedLine(lines[i])
    ensures Listed(lines, a, b) <==> Listed(lines[..|lines| - 1], a, b) || Names(lines[|lines| - 1], a, b)
  {
    var init := lines[..|lines| - 1];
    if Listed(lines, a, b) {
      var i :| 0 <= i < |lines| && Names(lines[i], a, b);
      if i < |lines| - 1 {
        assert init[i] == lines[i];
      }
    }
    if Listed(init, a, b) {
      var i :| 0 <= i < |init| && Names(init[i], a, b);
      assert lines[i] == init[i];
    }
  }

  /** The edges of the graph read from `lines` are exactly the pairs the lines name. */
  lemma {:induction false} BuildEdges(m: Mapping, lines: seq<string>)
    requires forall i :: 0 <= i < |lines| ==> WellFormedLine(lines[i])
    ensures forall a, b :: HasEdge(Build(m, lines), a, b) <==> HasEdge(m, a, b) || Listed(lines, a, b)
    decreases |lines|
  {
    if lines != [] {
      var init := lines[..|lines| - 1];
      var last := lines[|lines| - 1];
      BuildEdges(m, init);
      AddEdgesShape(Build(m, init), Origin(last), Destinations(last));
      forall a, b
        ensures Listed(lines, a, b) <==> Listed(init, a, b) || Names(last, a, b)
      {
        ListedSnoc(lines, a, b);
      }
    }
  }

  /** `r` keeps the vertices and edges of `m`, and every vertex it adds has an edge. */
  ghost predicate Grows(m: Mapping, r: Mapping) {
    && (forall x :: x in m ==> x in r)
    && (forall x, y :: HasEdge(m, x, y) ==> HasEdge(r, x, y))
    && (forall x :: x in r && x !in m ==> exists y :: HasEdge(r, x, y))
  }

  lemma GrowsTrans(m1: Mapping, m2: Mapping, m3: Mapping)
    requires Grows(m1, m2) && Grows(m2, m3)
    ensures Grows(m1, m3)
  {
    forall x | x in m3 && x !in m1
      ensures exists y :: HasEdge(m3, x, y)
    {
      if x in m2 {
        var y :| HasEdge(m2, x, y);
        assert HasEdge(m3, x, y);
      }
    }
  }

  lemma AddEdgesGrows(m: Mapping, orig: Vertex, dests: seq<Vertex>)
    ensures Grows(m, AddEdges(m, orig, dests))
  {
    var r := AddEdges(m, orig, dests);
    AddEdgesShape(m, orig, dests);
    forall x | x in r && x !in m
      ensures exists y :: HasEdge(r, x, y)
    {
      if x == orig {
        assert HasEdge(r, x, dests[0]);
      } else {
        assert HasEdge(r, x, orig);
      }
    }
  }

  /** Every vertex the lines add has an edge. */
  lemma {:induction false} BuildGrows(m: Mapping, lines: seq<string>)
    requires forall i :: 0 <= i < |lines| ==> WellFormedLine(lines[i])
    ensures Grows(m, Build(m, lines))
    decreases |lines|
  {
    if lines == [] {
      assert Build(m, lines) == m;
    } else {
      var init := lines[..|lines| - 1];
      var last := lines[|lines| - 1];
      BuildGrows(m, init);
      AddEdgesGrows(Build(m, init), Origin(last), Destinations(last));
      GrowsTrans(m, Build(m, init), Build(m, lines));
    }
  }

  /** A vertex of the graph read from `lines` is the end of some pair a line names: an
      origin without destinations adds nothing. */
  lemma BuildVertices(lines: seq<string>)
    requires forall i :: 0 <= i < |lines| ==> WellFormedLine(lines[i])
    ensures forall x :: x in Build(map[], lines) <==> exists y :: Listed(lines, x, y)
  {
    BuildEdges(map[], lines);
    BuildGrows(map[], lines);
    forall x
      ensures x in Build(map[], lines) <==> exists y :: Listed(lines, x, y)
    {
      if x in Build(map[], lines) {
        var y :| HasEdge(Build(map[], lines), x, y);
        assert Listed(lines, x, y);
      }
      if y :| Listed(lines, x, y) {
        assert HasEdge(Build(map[], lines), x, y);
      }
    }
  }

  /** The graph after the first `i` lines have been read, starting from `m`. */
  function ReadUpTo(m: Mapping, lines: seq<string>, i: nat): Mapping
    requires i <= |lines| && forall i :: 0 <= i < |lines| ==> WellFormedLine(lines[i])
  {
    if i == 0 then m else AddEdges(ReadUpTo(m, lines, i - 1), Origin(lines[i - 1]), Destinations(lines[i - 1]))
  }

  /** The origins `ends` holds after the first `i` lines: those of the first two. */
  function FirstOrigins(lines: seq<string>, i: nat): seq<Vertex>
    requires i <= |lines| && forall i :: 0 <= i < |lines| ==> WellFormedLine(lines[i])
  {
    if i == 0 then []
    else
      var ends := FirstOrigins(lines, i - 1);
      if |ends| < 2 then ends + [Origin(lines[i - 1])] else ends
  }

  lemma {:induction false} FirstOriginsEnds(lines: seq<string>, i: nat)
    requires i <= |lines| && forall i :: 0 <= i < |lines| ==> WellFormedLine(lines[i])
    ensures |FirstOrigins(lines, i)| == if i < 2 then i else 2
    ensures i >= 1 ==> FirstOrigins(lines, i)[0] == Origin(lines[0])
    ensures i >= 2 ==> FirstOrigins(lines, i)[1] == Origin(lines[1])
  {
    if i > 0 {
      FirstOriginsEnds(lines, i - 1);
    }
  }

  /** Reading line by line is reading the prefix. */
  lemma {:induction false} ReadUpToBuild(m: Mapping, lines: seq<string>, i: nat)
    requires i <= |lines| && forall i :: 0 <= i < |lines| ==> WellFormedLine(lines[i])
    ensures ReadUpTo(m, lines, i) == Build(m, lines[..i])
  {
    if i > 0 {
      ReadUpToBuild(m, lines, i - 1);
      PrefixStep(lines, i - 1);
    }
  }

  /** The inner loop of `read_problem`: `add_edge(orig, d)` for each destination. */
  method AddLine(graph: Graph, orig: Vertex, dests: seq<Vertex>)
    modifies graph
    ensures graph.mapping == AddEdges(old(graph.mapping), orig, dests)
  {
    for k := 0 to |dests|
      invariant graph.mapping == AddEdges(old(graph.mapping), orig, dests[..k])
    {
      assert dests[..k + 1][..k] == dests[..k];
      graph.AddEdge(orig, dests[k]);
    }
    assert dests[..|dests|] == dests;
  }

  /** One pass of the loop of `read_problem`: split the line at ": " and add the edges it
      names; the origin is handed back for `ends`. */
  method ReadLine(graph: Graph, ghost start: Mapping, lines: seq<string>, i: nat) returns (orig: Vertex)
    requires i < |lines| && forall i :: 0 <= i < |lines| ==> WellFormedLine(lines[i])
    requires graph.mapping == ReadUpTo(start, lines, i)
    modifies graph
    ensures graph.mapping == ReadUpTo(start, lines, i + 1) && orig == Origin(lines[i])
  {
    orig := Origin(lines[i]);
    AddLine(graph, orig, Destinations(lines[i]));
  }

  /** The loop of `read_problem`: read every line into `graph` with `add_edge`, remembering
      the origins of the first two lines in `ends`. */
  method ReadLines(graph: Graph, lines: seq<string>) returns (ends: seq<Vertex>)
    requires |lines| >= 2
    requires forall i :: 0 <= i < |lines| ==> WellFormedLine(lines[i])
    modifies graph
    ensures graph.mapping == ReadUpTo(old(graph.mapping), lines, |lines|)
    ensures ends == FirstOrigins(lines, |lines|)
  {
    ghost var start := graph.mapping;
    ends := [];
    for i := 0 to |lines|
      invariant graph.mapping == ReadUpTo(start, lines, i)
      invariant ends == FirstOrigins(lines, i)
    {
      var orig := ReadLine(graph, start, lines, i);
      if |ends| < 2 {
        ends := ends + [orig];
      }
    }
  }

  /** `read_problem`: a fresh graph holding every line's edges, with the origins of the first
      two lines as source and sink. */
  method ReadProblem(lines: seq<string>) returns (graph: Graph, source: Vertex, sink: Vertex)
    requires |lines| >= 2
    requires forall i :: 0 <= i < |lines| ==> WellFormedLine(lines[i])
    ensures fresh(graph) && graph.mapping == Build(map[], lines) && graph.Valid()
    ensures source == Origin(lines[0]) && sink == Origin(lines[1])
  {
    graph := new Graph();
    var ends := ReadLines(graph, lines);
    FirstOriginsEnds(lines, |lines|);
    source, sink := ends[0], ends[1];
    ReadUpToBuild(map[], lines, |lines|);
    PrefixWhole(lines);
    BuildKeepsResidual(map[], lines);
  }
}

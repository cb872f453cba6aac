# Advent of Code 2023 solvers, modelled in Dafny

This project models the library cores of a set of Rust solvers for Advent of Code 2023,
one Dafny module per source file:

- Day 25 (`Day25Graph`, `Day25Lib`) is the main part. It models the residual graph of the
  min-cut engine with unit-capacity edges and signed flows. It covers edge insertion, the
  breadth-first search for an augmenting path, the Ford-Fulkerson loop, the depth-first
  search behind `min_cut` and `partition`, and the parser that builds the graph. The
  graph is a class whose `mapping` field the methods update in place, as in the source.
  Its proofs show the invariants of a residual graph: flows are skew-symmetric, residual
  capacities stay in range, the loop terminates, and the loop ends with the sink out of
  the source's reach. They also show that the partition splits the vertices into the
  reachable side and the rest.
- The other days are modelled alongside:
  - calibration digits (day 1);
  - cube games (day 2);
  - the engine schematic (day 3);
  - scratchcards and their copies (day 4);
  - almanac range maps (day 5);
  - boat-race bisections (day 6);
  - Camel Cards hands (day 7);
  - network walking and the lcm of several walkers (day 8);
  - extrapolation by differences (day 9);
  - the pipe loop and its ray cast (day 10);
  - galaxy expansion (day 11);
  - mirror lines (day 13);
  - tilting rocks (day 14);
  - HASH and the lens boxes (day 15);
  - the part-sorting workflows and their decision tree (day 19).
- Loops and in-place updates in the source become methods with loop invariants. Each
  method is proved against a function that specifies it. Pure code becomes functions, and
  lemmas state what the functions promise.
- Some conventions hold throughout:
  - Text is `seq<char>`, and inputs are ASCII, so a character is one byte.
  - Numbers are unbounded; a machine width is written out only where the source relies on
    it.
  - A panic of `unwrap`, an index out of range or `unimplemented!()` becomes an `Option`,
    a `Result` or a named outcome, or, where noted, a precondition.
  - Input read from a stream becomes a sequence of lines.
- Shared helpers live in `Wrappers` (Option and Result) and `Strings` (the few `str`
  methods the solvers use: splitting, trimming and number parsing).

## Model

| member | source | states |
|---|---|---|
| Day25Graph.Edge.ResidualCapacity | day25/src/graph.rs:17-19 | the `(capacity as i64 - flow) as usize` cast: the difference itself when it lies in 0 .. 2^64, the difference plus 2^64 when it is negative, always below 2^64 |
| Day25Graph.NewEdge | day25/src/graph.rs:10-15 | a new edge has capacity 1 and flow 0, so residual capacity 1 |
| Day25Graph.ResidualInRange | day25/src/graph.rs:17-19 | in a residual graph (unit capacities, skew-symmetric flows within capacity) every residual lies in 0 .. 2, so the cast never wraps |
| Day25Graph.ClosedSeparates | day25/src/graph.rs:126-152 | a vertex set closed under positive-residual edges that holds the start and not the target shows there is no positive path between them |
| Day25Graph.ClosedReachableSet | day25/src/graph.rs:65-82 | a closed set of vertices all reachable from `a` and holding `a` is exactly the set `a` reaches |
| Day25Graph.WithDirectedEdge | day25/src/graph.rs:32-36 | `add_directed_edge`: the key set gains `orig`, orig->dest becomes a fresh edge, no other edge appears or changes |
| Day25Graph.WithEdge | day25/src/graph.rs:38-41 | `add_edge`: both directions become fresh edges (an existing pair is overwritten, never duplicated), the key set gains both ends, every other edge is kept |
| Day25Graph.WithEdgeKeepsResidual | day25/src/graph.rs:38-41 | adding an edge pair to a residual graph leaves a residual graph |
| Day25Graph.AddFlowAtEdges | day25/src/graph.rs:21-23 | one `and_modify(add_flow)`: same keys, only edge u->v changes, by `amount`, and nothing happens when it is missing |
| Day25Graph.StepFlowEdges | day25/src/graph.rs:50-58 | one turn of the augmentation loop adds `f` to current->v and `-f` to v->current; the keys stay |
| Day25Graph.AugmentedEdges | day25/src/graph.rs:49-59 | after the whole loop every edge's flow has moved by the net change the walk makes on it, and the keys are unchanged |
| Day25Graph.DeltaSkew | day25/src/graph.rs:50-58 | the net change on v->u is minus that on u->v, so the loop keeps flow(u,v) = -flow(v,u) |
| Day25Graph.DeltaOfDistinct | day25/src/graph.rs:49-59 | on a path without repeated vertices an edge gains at most `f`, and only when it is a step of the path |
| Day25Graph.DeltaFromStart | day25/src/graph.rs:49-59 | of the edges leaving the start of such a path only the first step gains flow |
| Day25Graph.AugmentEdges | day25/src/graph.rs:47-59 | augmenting from the path's own start moves every flow by the path's net change and keeps the keys |
| Day25Graph.AugmentKeepsInvariants | day25/src/graph.rs:47-59 | augmenting by at most the bottleneck keeps every residual in range, flows skew-symmetric, and the same vertices and edge keys |
| Day25Graph.AugmentLowersOutUnits | day25/src/graph.rs:47-59 | each augmentation removes at least one unit of residual capacity leaving the source, the measure that ends the `while let` loop |
| Day25Graph.AsWrittenAgreesWithoutSinkNeighbour | day25/src/graph.rs:48 | starting the loop at the literal "sink" changes nothing extra when the source is itself "sink" or has no neighbour named "sink" |
| Day25Graph.ExampleGraphEdges | day25/src/graph.rs:38-41 | the example graph built with `add_edge` (s-"sink", s-t, s-a, a-t) is a residual graph with a fresh "sink"-s edge |
| Day25Graph.AsWrittenOverflowsResidual | day25/src/graph.rs:48-53 | as written, two augmentations from a source next to a vertex named "sink" push flow f1 + f2 >= 2 onto the unit edge "sink"->source, leaving an infeasible flow |
| Day25Graph.ExampleOverflows | day25/src/graph.rs:47-59 | the example graph, augmented as written along s t and then s a t, ends with an infeasible flow |
| Day25Graph.MinResidualIsBottleneck | day25/src/graph.rs:154-169 | the running minimum of the path's residuals is at most each of them and equal to one of them |
| Day25Graph.MinResidualFits | day25/src/graph.rs:154-169 | the running minimum of the path's residuals is at most the residual of every step |
| Day25Graph.MinResidualAttained | day25/src/graph.rs:154-169 | the running minimum of the path's residuals is the residual of one of its steps |
| Day25Graph.FoundReachable | day25/src/graph.rs:126-175 | a path `find_path` returns shows source != sink and that the sink is reachable |
| Day25Graph.AugmentRound | day25/src/graph.rs:47-59 | one round of the max-flow loop agrees with the intended augmentation, keeps the residual-graph invariants and shape, and strictly lowers the source's residual units |
| Day25Graph.LeavingSet | day25/src/graph.rs:87-89 | the `filter` of `min_cut`: a pair is kept iff it is in the list and its end is not visited |
| Day25Graph.DfsReach | day25/src/graph.rs:65-82 | run from the source with nothing visited, `dfs` visits exactly what the source reaches, and its list holds every zero-residual edge out of that set |
| Day25Graph.CrossingEdgesSaturated | day25/src/graph.rs:84-90 | every edge from the reachable side to the other side has residual 0 |
| Day25Graph.Graph.constructor | day25/src/graph.rs:26-29 | `Graph::default()`: the empty mapping, a valid residual graph |
| Day25Graph.Graph.Clone | day25/src/graph.rs:45 | `self.clone()`: a new graph with the same mapping |
| Day25Graph.Graph.AddDirectedEdge | day25/src/graph.rs:32-36 | updates the mapping to `WithDirectedEdge` of the old one |
| Day25Graph.Graph.AddEdge | day25/src/graph.rs:38-41 | updates the mapping to `WithEdge` of the old one and keeps it a residual graph |
| Day25Graph.Graph.AddFlowTo | day25/src/graph.rs:50-57 | one `entry(u).and_modify(entry(v).and_modify(add_flow))`: the mapping becomes `AddFlowAt` of the old one |
| Day25Graph.Graph.FordFulkerson | day25/src/graph.rs:43-63 | returns a fresh residual graph of the same shape in which the sink is out of the source's reach, so no augmenting path is left, leaving `self` alone |
| Day25Graph.Graph.AugmentPath | day25/src/graph.rs:48-59 | the `for` loop leaves the mapping as `AugmentAsWritten` of the old one |
| Day25Graph.Graph.Dfs | day25/src/graph.rs:65-82 | the visited list is extended by `current` and then further vertices, none repeated; every added vertex is reachable from `current`, every positive edge out of an added vertex ends at a visited vertex, and the returned list is exactly the zero-residual edges out of the added vertices |
| Day25Graph.Graph.MinCut | day25/src/graph.rs:84-90 | a pair is returned iff it is an edge with residual 0 from a vertex the source reaches to one it does not |
| Day25Graph.Graph.Partition | day25/src/graph.rs:92-102 | the first list is exactly the vertices the source reaches, the second every other key of the mapping, both without repeats |
| Day25Graph.Graph.FindPath | day25/src/graph.rs:126-177 | None iff source == sink or the sink is unreachable; otherwise a path of distinct vertices over positive residual capacity from source to sink, with its bottleneck as `max_flow` |
| Day25Graph.Graph.Search | day25/src/graph.rs:127-152 | the BFS loop: on success a parent tree of positive edges holding the sink; on failure the sink is unreachable or equal to the source |
| Day25Graph.Graph.ScanNeighbours | day25/src/graph.rs:136-145 | the parents found so far are kept, every vertex given a parent in this pass gets `current`, and the result is still a parent tree of positive edges; unless the sink got its parent, every positive neighbour of `current` ends visited and every newly visited vertex queued |
| Day25Graph.ScanAdd | day25/src/graph.rs:137-143 | a positive unvisited neighbour other than the sink, given `current` as parent and queued, keeps the invariant |
| Day25Graph.Graph.ReadPath | day25/src/graph.rs:154-170 | walking the parents back from the sink yields a path from the source to the sink with its minimum residual |
| Day25Lib.AddEdgesKeepsResidual | day25/src/lib.rs:17-19 | adding the edges of one line to a residual graph leaves a residual graph |
| Day25Lib.AddEdgesShape | day25/src/lib.rs:17-19 | the vertices after a line are the old ones, the destinations and (only when there is a destination) the origin; the edges are the old ones plus origin-destination in both directions |
| Day25Lib.BuildKeepsResidual | day25/src/lib.rs:10-20 | the graph read from well-formed lines is a residual graph (fresh edges in symmetric pairs) |
| Day25Lib.BuildEdges | day25/src/lib.rs:12-20 | the edges of the graph read from the lines are exactly the pairs the lines name, in either direction |
| Day25Lib.BuildGrows | day25/src/lib.rs:12-20 | every vertex the lines add has an edge |
| Day25Lib.BuildVertices | day25/src/lib.rs:17-19 | a vertex exists only if it ends a pair some line names: an origin without destinations adds nothing |
| Day25Lib.SeparatorFromFirst | day25/src/lib.rs:13 | the search from a position finds the first ": " at or after it, and finds nothing exactly when there is none |
| Day25Lib.SeparatorFirst | day25/src/lib.rs:13 | `split_once(": ")` splits at the first ": " of the line, and fails exactly when the line holds none |
| Day25Lib.FirstOriginsEnds | day25/src/lib.rs:11-16 | after `i` lines `ends` holds min(i, 2) origins: those of the first and second lines, in order |
| Day25Lib.ReadUpToBuild | day25/src/lib.rs:12-20 | reading the lines one at a time gives the graph built from the prefix read so far |
| Day25Lib.ReadLine | day25/src/lib.rs:13-19 | one pass of the loop adds the edges of line `i` to the graph of the lines before it and hands back the line's origin |
| Day25Lib.ReadLines | day25/src/lib.rs:11-20 | the loop leaves the graph holding every line's edges, and `ends` holding the origins of the first two lines |
| Day25Lib.AddLine | day25/src/lib.rs:17-19 | the inner loop calls `add_edge(orig, d)` for every whitespace-separated destination in order |
| Day25Lib.ReadProblem | day25/src/lib.rs:7-23 | a fresh graph holding the lines' edges, with the origins of the first and second lines as source and sink; fewer than two lines or a line without ": " is excluded by the precondition (a panic in the source) |
| Day19.ActionFromText | day19/src/lib.rs:10-18 | reading "A", "R" or a workflow name gives Accept, Reject or a jump to that workflow, and back |
| Day19.SplitRange | day19/src/lib.rs:63-69 | for every value of the range, the value lies in the first half iff it passes the comparison and in the second iff it fails it |
| Day19.SplitRangeOverreaches | day19/src/lib.rs:63-69 | as written, a split point beyond the range widens one half past it: 1..5 split at `< 10` gives 1..10, which holds 7 |
| Day19.ClampedSplitRange | day19/src/lib.rs:63-69 | the intended split: the halves are exactly the values of the range that pass and that fail, and their lengths add up to the range's |
| Day19.SplitRangeInside | day19/src/lib.rs:63-69 | with the split point inside the range the code as written and the intended split agree |
| Day19.NewBox | day19/src/lib.rs:72-74 | every attribute ranges over 1..4001, 4000 ratings |
| Day19.WithAttr | day19/src/lib.rs:76-108 | replacing one attribute's range sets that range and keeps the other three |
| Day19.InBoxAttrs | day19/src/lib.rs:32-37 | a part lies in a box iff each of its four ratings lies in the box's range for that attribute |
| Day19.SplitUsing | day19/src/lib.rs:76-108 | only the named attribute's range is split; the other three are copied into both halves |
| Day19.SplitUsingSeparates | day19/src/lib.rs:76-108 | a part of the box lands in the first half iff it passes the comparison, in the second iff it fails it |
| Day19.ClampedHalvesInside | day19/src/lib.rs:76-108 | with the intended split both halves hold only parts of the original box |
| Day19.CombinationsAt | day19/src/lib.rs:110-112 | the combinations of a box are the length of any one attribute's range times the product of the other three |
| Day19.SplitUsingCombinations | day19/src/lib.rs:76-112 | with the intended split the combinations of the halves add up to those of the box |
| Day19.RecTraverse | day19/src/lib.rs:134-152 | the recursion returns the boxes of the yes-branch followed by those of the no-branch, as the specification function collects them |
| Day19.Traverse | day19/src/lib.rs:130-132 | traversal starts from the box of all ratings 1 to 4000 |
| Day19.CoveredAppend | day19/src/lib.rs:134-152 | a part is covered by the joined lists of boxes iff it is covered by one of them |
| Day19.BranchComplete | day19/src/lib.rs:134-152 | even as written, every part of the box that the tree accepts lies in a returned box |
| Day19.BranchExact | day19/src/lib.rs:134-152 | with the intended split, a part lies in a returned box iff it lies in the starting box and the tree accepts it |
| Day19.TraverseExact | day19/src/lib.rs:130-132 | the intended traversal covers exactly the accepted parts with ratings 1 to 4000 |
| Day19.BranchDisjoint | day19/src/lib.rs:134-152 | with the intended split no part lies in two returned boxes |
| Day19.SumCombinationsAppend | day19/src/lib.rs:110-112 | summing combinations distributes over joined lists of boxes |
| Day19.BranchCombinations | day19/src/lib.rs:110-152 | with the intended split the returned boxes count no more combinations than the starting box |
| Day19.TraverseAsWrittenOvercounts | day19/src/lib.rs:63-69 | as written, the tree `x < 5` then `x < 10` returns a box holding x = 7, which the tree rejects, and counts 9 values of x instead of 4 |
| Day19.Step | day19/src/lib.rs:163-172 | an instruction stops at an attribute other than x, m, a and s exactly when it is a comparison of one; it passes the part over only when it is a comparison, and otherwise takes its own action |
| Day19.ScanValid | day19/src/lib.rs:163-172 | when every comparison names x, m, a or s, the scan never stops at a bad attribute |
| Day19.PerformValid | day19/src/lib.rs:161-185 | with every workflow's comparisons naming x, m, a or s, performing an action never reaches the `get_rating` panic |
| Day19.RunCodeValid | day19/src/lib.rs:161-185 | the same for running a workflow's instructions |
| Day19.PerformFuelMonotone | day19/src/lib.rs:161-185 | a verdict reached within some number of jumps is reached, unchanged, with any larger budget |
| Day19.RunCodeFuelMonotone | day19/src/lib.rs:161-185 | the same for running a workflow's instructions |
| Day19.ScanStep | day19/src/lib.rs:171-182 | scanning from an instruction either stops at it, when it matches, or goes on with the next |
| Day19.IsAccepted | day19/src/lib.rs:161-185 | for any workflows, the two loops compute the outcome of the evaluator: the first matching instruction decides, Accept and Reject stop, a jump restarts at the named workflow, and a comparison of an attribute other than x, m, a and s stops the run there |
| Day19.ActionNodeAgrees | day19/src/lib.rs:187-196 | the tree built for an action is well formed and decides every part as the evaluator performing the action does |
| Day19.TreeAgrees | day19/src/lib.rs:198-211 | the tree built for a list of instructions decides every part as running them does |
| Day19.TraverseMatchesEvaluator | day19/src/lib.rs:213-216 | when the workflows from "in" unfold into a tree, the intended traversal covers exactly the parts with ratings 1 to 4000 that the evaluator accepts |
| Day19.CompileItems | day19/src/lib.rs:223-239 | a compiled list holds one instruction per comma item |
| Day19.CompileItemDo | day19/src/lib.rs:223-239 | an item without ':' is a Do of its whole text; one with ':' compiles to a comparison or fails |
| Day19.ItemTexts | day19/src/lib.rs:223-239 | one text per instruction, each that instruction's text |
| Day19.DigitsHoldNoSeparator | day19/src/lib.rs:223-239 | a run of digits holds no ':' and no ',' |
| Day19.CompileItemText | day19/src/lib.rs:223-239 | reading an instruction's text gives the instruction back |
| Day19.CompileItemsOf | day19/src/lib.rs:223-239 | items that each compile give the list of their instructions, in order |
| Day19.CompileItemsText | day19/src/lib.rs:223-239 | reading the texts of a list of instructions gives the list back |
| Day19.CompileWorkflowText | day19/src/lib.rs:219-242 | reading a workflow's text `name{items}` gives the name and the workflow back |
| Day01.CharToInt | day01/src/main.rs:4-18 | a character has a value iff it is a decimal digit, and the value is the digit it writes |
| Day01.NumberOptionsWellFormed | day01/src/main.rs:22-43 | every entry of the table has a size equal to the length of its spelling and a digit that the spelling names |
| Day01.FirstMatch | day01/src/main.rs:44-50 | a match gives a digit and a size between one and the length of the text |
| Day01.ParseString | day01/src/main.rs:21-51 | the loop over the table returns the first entry whose spelling starts the text |
| Day01.FirstMatchSpec | day01/src/main.rs:44-50 | there is no match iff no spelling starts the text; a match is the first such entry, with its digit and its size |
| Day01.CalibrateValue | day01/src/main.rs:74-76 | no value (the `unwrap` panics) iff there is no digit; otherwise ten times the first digit plus the last, below 100 |
| Day01.Digits | day01/src/main.rs:69-72 | the kept characters are all digits |
| Day01.DigitsFirst | day01/src/main.rs:69-74 | none are kept iff the line has no digit; the first kept is the first digit of the line |
| Day01.DigitsConcat | day01/src/main.rs:69-72 | the digits of joined texts are the digits of each part |
| Day01.DigitsLast | day01/src/main.rs:69-74 | the last kept is the last digit of the line |
| Day01.CollectValuesSpec | day01/src/main.rs:68-77 | the value of a line is ten times its first digit plus its last digit, and there is none (the source panics) when the line has no digit |
| Day01.CollectValues2 | day01/src/main.rs:53-66 | the loop tries the table at every index, so overlapping spellings all count, and joins the first and last digit found |
| Day01.SpelledDigits | day01/src/main.rs:57-63 | every digit found is a digit, and none is found iff no index matches |
| Day01Part1.MatchIndicesSpec | day01/src/bin/part1.rs:6-8 | every match is a digit at its index, the indices increase, and every digit of the text is matched |
| Day01Part1.MatchedDigits | day01/src/bin/part1.rs:6-8 | the matched characters are the digits that the filter of main.rs keeps |
| Day01Part1.CollectValuesAgree | day01/src/bin/part1.rs:5-13 | the first part computes the same value as `collect_values` of main.rs, and nothing on a line without digits |
| Day01Part1.Framed | day01/src/bin/part1.rs:10 | a digit after a text without digits is the first one of the line, and before one the last |
| Day01Part1.Bracketed | day01/src/bin/part1.rs:5-13 | a line whose first digit is `a` and last is `b` has the value ten times `a` plus `b` |
| Day01Part1.Examples | day01/src/bin/part1.rs:31-43 | "1abc2" gives 12, "pqr3stu8vwx" 38 and "a1b2c3d4e5f" 15 |
| Day01Part1.SingleDigit | day01/src/bin/part1.rs:5-13 | a line with a single digit counts it twice |
| Day01Part1.SingleDigitExample | day01/src/bin/part1.rs:46-47 | "treb7uchet" gives 77 |
| Day01Part2.Step | day01/src/bin/part2.rs:44-46 | the scanner moves at least one position, and no further than the match is long |
| Day01Part2.CollectValues | day01/src/bin/part2.rs:36-53 | the scanning loop collects the digits the scan specification finds and joins the first and the last |
| Day01Part2.SkipFound | day01/src/bin/part2.rs:41-45 | after a match the scan records its digit and moves on by `max(1, size - 1)` |
| Day01Part2.SkipMissing | day01/src/bin/part2.rs:46 | without a match the scan moves on by one |
| Day01Part2.Openings | day01/src/bin/part2.rs:4-13 | every spelled word opens with two letters |
| Day01Part2.InnerPairs | day01/src/bin/part2.rs:4-13 | no spelling has, inside it and not at its last letter, two letters that open another spelling, nor a digit |
| Day01Part2.NoMatchInside | day01/src/bin/part2.rs:40-48 | the positions the scanner jumps over hold no match |
| Day01Part2.SpelledGap | day01/src/main.rs:57-61 | positions without a match add nothing to the every-index scan |
| Day01Part2.SpelledAfterMatch | day01/src/bin/part2.rs:40-46 | after a match, the every-index scan finds its digit and nothing more until the scanner's next position |
| Day01Part2.SkipSpelled | day01/src/bin/part2.rs:40-48 | the skipping scanner finds the same digits as the every-index scan of `collect_values2` in main.rs |
| Day01Part2.CollectValuesAgree | day01/src/bin/part2.rs:36-53 | the scanner's value is the value `collect_values2` of main.rs computes |
| Day01Part2.OpeningsDistinct | day01/src/bin/part2.rs:4-13 | distinct spellings open with distinct pairs of letters |
| Day01Part2.UniquePrefix | day01/src/bin/part2.rs:3-24 | at most one entry of the table starts any text |
| Day01Part2.MatchAt | day01/src/bin/part2.rs:26-34 | a text starting with an entry of the table is read as that entry |
| Day01Part2.SpelledLastFrom | day01/src/main.rs:57-63 | the last digit found from a position is the last found from any later position that still finds one |
| Day01Part2.ScanValue | day01/src/bin/part2.rs:36-53 | the value of a line is read off its first and its last matching position |
| Day01Part2.SpelledEnds | day01/src/main.rs:57-63 | the every-index scan opens with the digit read at the first reading position and closes with the one read at the last |
| Day01Part2.NoMatchBetween | day01/src/bin/part2.rs:26-34 | positions that open with neither a digit nor a spelling's first two letters, or that depart from the one spelling they open like, read no digit |
| Day01Part2.CalibrateEnds | day01/src/bin/part2.rs:50-52 | digits starting with `first` and ending with `last` give ten times `first` plus `last` |
| Day01Part2.EightTwoThree | day01/src/bin/part2.rs:80 | "eightwothree" gives 83 |
| Day01Part2.EightTwoThreeReads | day01/src/bin/part2.rs:80 | "eightwothree" reads "eight" at 0, "three" at 7 and nothing after |
| Day01Part2.ZoneEight | day01/src/bin/part2.rs:93 | "zoneight234" gives 14 |
| Day01Part2.ZoneEightReads | day01/src/bin/part2.rs:93 | "zoneight234" reads nothing at 0, "one" at 1 and "4" at 10 |
| Day01Part2.TwoOne | day01/src/bin/part2.rs:94 | "abtwonefoo" gives 21: "two" and "one" share their "o" and both count |
| Day01Part2.TwoOneReads | day01/src/bin/part2.rs:94 | "abtwonefoo" reads "two" at 2 and "one" at 4, and nothing before 2 or after 4 |
| Day01Part2.Five | day01/src/bin/part2.rs:82 | "five" gives 55 |
| Day01Part2.FiveReads | day01/src/bin/part2.rs:82 | "five" reads "five" at 0 and nothing after |
| Day01Part2.OneNine | day01/src/bin/part2.rs:81 | "onefoursixnine" gives 19 |
| Day01Part2.OneNineReads | day01/src/bin/part2.rs:81 | "onefoursixnine" reads "one" at 0, "nine" at 10 and nothing after |
| Day02.Set | day02/src/lib.rs:27-29 | assigning one colour sets its count and keeps the other two |
| Day02.ReadAll | day02/src/lib.rs:24-32 | the parts read give one entry per part |
| Day02.FromString | day02/src/lib.rs:19-35 | the loop reads the parts separated by ", " in order, stopping at the first error |
| Day02.ErrorSticks | day02/src/lib.rs:24-32 | once a prefix of the parts is rejected, so are all the parts, with the same error |
| Day02.ReadAllKnown | day02/src/lib.rs:24-32 | the parts are accepted exactly when each reads, and the entries are the parts read one by one |
| Day02.FromPartsFirstError | day02/src/lib.rs:24-32 | the error is that of the first part that does not read |
| Day02.AssignUnnamed | day02/src/lib.rs:10-31 | a colour no entry names keeps its initial 0 |
| Day02.AssignLast | day02/src/lib.rs:26-31 | a colour holds the count of an entry naming it when no later entry names it |
| Day02.AssignLastWins | day02/src/lib.rs:26-31 | each colour holds the count of the last entry naming it, and 0 when none does |
| Day02.FromPartsLastWins | day02/src/lib.rs:19-35 | the parts are accepted exactly when each reads, and then each colour holds the count of the last part naming it, or 0 |
| Day02.ReadText | day02/src/lib.rs:25-29 | a part written as a count and a colour reads as that colour and count |
| Day02.ReadAllOk | day02/src/lib.rs:24-32 | parts that each read give the entries they read |
| Day02.FromPartsOf | day02/src/lib.rs:19-35 | parts that each read give the counts their entries assign |
| Day02.AssignTwo | day02/src/lib.rs:10-31 | two entries set their colours in turn, starting from 0 |
| Day02.AssignThree | day02/src/lib.rs:10-17 | the three colours red, green, blue in turn give those counts |
| Day02.SplitSample | day02/src/lib.rs:24 | "3 blue, 4 red" splits into "3 blue" and "4 red" |
| Day02.ReadSample | day02/src/lib.rs:25-29 | a one-digit count and a colour name read as that entry |
| Day02.FromPartsExample1 | day02/src/lib.rs:74-77 | "3 blue, 4 red" gives 4 red, 0 green and 3 blue |
| Day02.FromPartsExample2 | day02/src/lib.rs:78-81 | the parts of "1 red, 2 green, 6 blue" give 1 red, 2 green and 6 blue |
| Day02.FromPartsExample3 | day02/src/lib.rs:82-85 | "2 green" gives 0 red, 2 green and 0 blue |
| Day02.ReadUnknown | day02/src/lib.rs:30 | "4 purple" is an error naming the colour |
| Day02.UnknownColorExample | day02/src/lib.rs:24-32 | a draw with an unknown colour is rejected, naming the colour |
| Day02.AllWithin | day02/src/lib.rs:46-50 | true iff every draw is within the reference counts |
| Day02.IsPossibleMonotone | day02/src/lib.rs:45-51 | a game without draws is possible, and a possible game stays possible with more cubes of each colour |
| Day02.Collect | day02/src/lib.rs:58-60 | one draw per result when the results are all accepted |
| Day02.CollectOk | day02/src/lib.rs:58-60 | the results are collected exactly when none is an error, and then in order |
| Day02.ParseDrawsRead | day02/src/lib.rs:58-60 | the draw texts are accepted exactly when each reads, and then give one draw per text, each the text read |
| Day02.DrawTexts | day02/src/lib.rs:58 | one text per draw |
| Day02.DrawTextSplit | day02/src/lib.rs:24 | a written draw splits into its three parts and holds no ';' |
| Day02.DrawTextRead | day02/src/lib.rs:19-35 | a written draw reads back as the draw |
| Day02.ParseLineText | day02/src/lib.rs:54-66 | parsing the line of a game with at least one draw gives the game back |
| Day02.DrawTextsRead | day02/src/lib.rs:58-60 | written draws read back as those draws |
| Day03.OnRow | day03/src/lib.rs:19 | one cell per column, each that column on the given row |
| Day03.NewObject | day03/src/lib.rs:14-26 | a leading digit makes a Number whose value is the decimal value of the digits and whose cells are the columns on the row; anything else makes a Symbol at the first column |
| Day03.NeighborsRowMeans | day03/src/lib.rs:28-35 | an object neighbours a row iff its own row is within one of it |
| Day03.AnyTouches | day03/src/lib.rs:56-59 | the scan holds iff some cell lies within one row and one column of the symbol |
| Day03.AnySymbolAdjacent | day03/src/lib.rs:65-70 | the scan holds iff some entry of the slice is a Symbol adjacent to the number |
| Day03.IsPartNum | day03/src/lib.rs:62-74 | true iff the object is a Number with a cell touching some Symbol of the slice; a Symbol never is a part number |
| Day03.AdjacentNumbers | day03/src/lib.rs:89 | the filtered numbers are no more than the parts |
| Day03.CountIsAdjacentNumbers | day03/src/lib.rs:76-89 | the count `is_gear` takes is the number of values `gear_ratio` collects |
| Day03.AdjacentNumbersExact | day03/src/lib.rs:89 | a number is collected iff some part adjacent to the symbol carries it |
| Day03.GearRatioOfGear | day03/src/lib.rs:76-94 | on a gear exactly two numbers are collected, both of adjacent parts, and the ratio is their product, so the indexing never panics |
| Day03.DigitRun | day03/src/lib.rs:110-113 | the run of digits from a column stops at the first non-digit or at the end of the line |
| Day03.Columns | day03/src/lib.rs:112 | the columns of a run, one per character |
| Day03.RunEnds | day03/src/lib.rs:101-113 | a run of digits ending at a non-digit or at the end of the line is exactly the run measured from its start |
| Day03.ObjectsAtRun | day03/src/lib.rs:103-127 | a run of digits becomes one Number followed by the objects after it |
| Day03.ObjectsAtOther | day03/src/lib.rs:103-121 | a '.' is skipped and any other non-digit is one Symbol at its column |
| Day03.SkipDots | day03/src/lib.rs:103-121 | a stretch of '.' contributes no object |
| Day03.PendingDigit | day03/src/lib.rs:110-113 | a digit extends the pending buffers by its character and its column |
| Day03.FlushStep | day03/src/lib.rs:103-127 | at a non-digit or at the end of the line the pending digits are the Number the remaining objects start with |
| Day03.ParseLine | day03/src/lib.rs:97-130 | the loop emits the objects of the line in order: each run of digits as one Number, each other non-'.' character as a Symbol |
| Day03.DecimalThree | day03/src/lib.rs:18 | a three-digit number is hundreds, tens and units |
| Day03.NumberAt | day03/src/lib.rs:14-26 | three digits at columns k..k+2 make the Number of their decimal value with those three cells |
| Day03.ExampleNumbers | day03/src/lib.rs:140-154 | the numbers 467, 114 and 617 of the tests, with their cells |
| Day03.ExampleFirstNumber | day03/src/lib.rs:140-144 | "467..114.." starts with 467 at x 0..2, followed by what column 3 on yields |
| Day03.ExampleSecondNumber | day03/src/lib.rs:140-144 | from column 3 of "467..114.." only 114 remains |
| Day03.ParseExampleNumbers | day03/src/lib.rs:139-144 | "467..114.." on row 0 parses to 467 at x 0..2 and 114 at x 5..7 |
| Day03.ParseExampleSymbol | day03/src/lib.rs:145-149 | "...*......" on row 1 parses to a single '*' at x 3 |
| Day03.ExampleTail | day03/src/lib.rs:150-155 | from column 7 of "......*617" only 617 remains |
| Day03.ParseExampleBoth | day03/src/lib.rs:150-155 | "......*617" on row 4 parses to '*' at x 6 followed by 617 at x 7..9 |
| Day03.IsPartExample | day03/src/lib.rs:158-175 | 617 is a part number of the two test symbols and 58 is not |
| Day04.SetOf | day04/src/lib.rs:24 | the set holds exactly the numbers of the sequence |
| Day04.PaddedTextsAvoid | day04/src/lib.rs:14-19 | numbers written in two-character columns and joined by spaces hold no other non-digit |
| Day04.HeaderWords | day04/src/lib.rs:13 | the header "Card n" splits into "Card" and the id, and holds no ':' |
| Day04.ParseU32sText | day04/src/lib.rs:15-19 | `u32` numbers written in two-character columns and joined by spaces read back as those numbers, whether one space or two separate them |
| Day04.ParseNumbersText | day04/src/lib.rs:14-19 | the two lists written around " \| " read back as the two lists |
| Day04.ParseCardText | day04/src/lib.rs:11-27 | parsing a written card gives back its id, the set of its winning numbers and its owned numbers in order, repeats included |
| Day04.CardTextSplits | day04/src/lib.rs:12 | a card's text splits at the first ": " into its header and its numbers |
| Day04.ParseExample | day04/src/lib.rs:54-63 | the card of the parsing test, written in the puzzle's columns with its double spaces, reads as card 1 with its winning set and owned list |
| Day04.ExampleSet | day04/src/lib.rs:59 | the winning numbers of the test as a set |
| Day04.ParseNoColon | day04/src/lib.rs:12 | a line without ": " is rejected (the source panics) |
| Day04.CountIn | day04/src/lib.rs:29-34 | no more matches than owned numbers |
| Day04.CountInSpec | day04/src/lib.rs:29-34 | the count is the number of owned entries that are winning numbers, repeats included; it is zero exactly when none wins and the number of owned entries exactly when all win |
| Day04.Pow2 | day04/src/lib.rs:39 | a power of two is at least one |
| Day04.ValueDoubles | day04/src/lib.rs:36-43 | no match is worth nothing, one match one point, each further match doubles the value, and the value fits in a `u64` |
| Day04.Pow2Monotone | day04/src/lib.rs:39 | larger shifts give larger powers |
| Day04.Pow2Add | day04/src/lib.rs:39 | shifting by a sum multiplies the powers |
| Day04.Pow2U64 | day04/src/lib.rs:39 | `1 << 63` is the largest power of two a `u64` holds |
| Day04.CountEight | day04/src/lib.rs:29-34 | the matches of a card with eight owned numbers, counted number by number |
| Day04.SampleMatches1 | day04/src/lib.rs:66-73 | the first sample card has 4 matches |
| Day04.SampleMatches2 | day04/src/lib.rs:66-73 | the second sample card has 2 matches |
| Day04.SampleMatches3 | day04/src/lib.rs:66-73 | the third sample card has 2 matches |
| Day04.SampleMatches4 | day04/src/lib.rs:66-73 | the fourth sample card has 1 match |
| Day04.SampleMatches5 | day04/src/lib.rs:66-73 | the fifth sample card has no match |
| Day04.SampleMatches6 | day04/src/lib.rs:66-73 | the sixth sample card has no match |
| Day04.SampleValues | day04/src/lib.rs:66-73 | the six sample cards are worth 8, 2, 2, 1, 0 and 0 points |
| Day04Part2.Length | day04/src/bin/part2.rs:12-22 | the list holds at least the initial entry, one entry per card seen, and one for every card any of them wins |
| Day04Part2.WonSettled | day04/src/bin/part2.rs:23-25 | no card wins copies of itself or of an earlier card, so later cards leave a card's count as it was |
| Day04Part2.WonBeyond | day04/src/bin/part2.rs:12-22 | a card that no earlier card wins is held once |
| Day04Part2.ProcessCard | day04/src/bin/part2.rs:12-25 | one pass: a card reached for the first time gets one copy, the list grows with single copies so that every won card has an entry, and each of the next `winners` cards gains the copies of this card; earlier entries are kept |
| Day04Part2.CountCopies | day04/src/bin/part2.rs:9-26 | the loop leaves one entry per card (and per won position past the last card), each the number of copies held: the original plus one per copy of every earlier card that wins it |
| Day04Part2.TotalBound | day04/src/bin/part2.rs:28 | every entry is at least one, so the total is at least the number of entries |
| Day04Part2.NoCards | day04/src/bin/part2.rs:9 | with no cards the list is the single initial entry |
| Day04Part2.SampleCopies | day04/src/bin/part2.rs:9-28 | the sample cards, with 4, 2, 2, 1, 0 and 0 matches, end with 1, 2, 4, 8, 14 and 1 copies, 30 scratchcards in all |
| Day05.Translate | day05/src/lib.rs:21-28 | a value is mapped iff the range covers it, and then lands inside the destination range |
| Day05.TranslateKeepsDistances | day05/src/lib.rs:21-28 | a range shifts every value it covers by the same offset, so it is one-to-one |
| Day05.TranslateOnto | day05/src/lib.rs:21-28 | every value of the destination range is reached |
| Day05.LeIsTotalOrder | day05/src/lib.rs:5-10 | the derived order on (destination, source, length) is total, antisymmetric and transitive |
| Day05.SortedCons | day05/src/lib.rs:43 | a range no greater than every range of a sorted list can go in front |
| Day05.InsertSorts | day05/src/lib.rs:43 | inserting into a sorted list keeps it sorted and adds exactly the new range |
| Day05.SortMappingsSorts | day05/src/lib.rs:43 | the sort orders the ranges and keeps exactly the same ones |
| Day05.SortedUnique | day05/src/lib.rs:43 | there is only one sorted arrangement of a collection of ranges, so this sort gives what the library sort gives |
| Day05.SortedHeads | day05/src/lib.rs:43 | two sorted arrangements of the same ranges start with the same range |
| Day05.SameTails | day05/src/lib.rs:43 | with equal first ranges, the rest of two arrangements of the same ranges hold the same ranges |
| Day05.SortedTail | day05/src/lib.rs:43 | the ranges after the first of a sorted list are sorted |
| Day05.NewMapSortsRanges | day05/src/lib.rs:41-50 | the new map has the given names and holds the given ranges, sorted |
| Day05.NewMapSorted | day05/src/lib.rs:41-50 | ranges already in order are kept as they are |
| Day05.MapValue | day05/src/lib.rs:85-93 | the loop returns the value the stored ranges give it |
| Day05.ApplyFirstCover | day05/src/lib.rs:85-93 | the first range in stored order that covers the value shifts it |
| Day05.ApplyUncovered | day05/src/lib.rs:92 | a value no range covers stays as it is |
| Day05.ApplyDisjoint | day05/src/lib.rs:85-93 | with disjoint sources, whichever range covers the value shifts it |
| Day05.ApplyPermutation | day05/src/lib.rs:85-93 | with disjoint sources the order of the ranges does not change the mapped value |
| Day05.ApplyExample | day05/src/lib.rs:137-140 | the example's seed-to-soil map sends seeds 79, 14, 55 and 13 to soils 81, 14, 57 and 13 |
| Day05.LineKinds | day05/src/lib.rs:67-80 | one kind per line of the input |
| Day05.CollectRanges | day05/src/lib.rs:67-80 | the ranges end at or after where they start |
| Day05.ReadMappings | day05/src/lib.rs:67-80 | the loop ends at or after where it starts |
| Day05.ReadMappingsAtEnd | day05/src/lib.rs:69-72 | the loop stops at once, with no ranges, exactly on a blank line or at the end of the input |
| Day05.Headers | day05/src/lib.rs:62-65 | one header reading per line |
| Day05.HeadersAt | day05/src/lib.rs:56-65 | each header is read with its newline kept |
| Day05.ReadMap | day05/src/lib.rs:52-83 | a map read moves past its header |
| Day05.MappingLineReads | day05/src/lib.rs:74-79 | the line `d s l` reads as the range (d, s, l) |
| Day05.CollectRangesRoundTrip | day05/src/lib.rs:67-80 | written ranges followed by a blank line are collected back, stopping after the blank line |
| Day05.ReadMappingsRoundTrip | day05/src/lib.rs:67-80 | the ranges written from a line on, followed by a blank line, are read back |
| Day05.WrittenRanges | day05/src/lib.rs:67-80 | written range lines are classified as those ranges |
| Day05.KindsOfRanges | day05/src/lib.rs:67-80 | lines that parse as the given ranges and then a blank line are classified so |
| Day05.BlankLineKind | day05/src/lib.rs:70 | an empty line is blank |
| Day05.NewlineIsBlank | day05/src/lib.rs:70 | a lone newline trims to nothing |
| Day05.HeaderReads | day05/src/lib.rs:62-65 | the header `a-to-b map:` reads as source a and destination b |
| Day05.ReadMapRoundTrip | day05/src/lib.rs:52-83 | reading a written map gives the map back and stops after its blank line |
| Day05.ReadMapAt | day05/src/lib.rs:52-83 | a header line naming a map's source and destination, followed by lines collected as its ranges in order, reads as that map, and the read stops where the range loop stopped |
| Day05.ReadMapGot | day05/src/lib.rs:56-82 | whenever the line reads as a header and the lines after it are collected, the read returns the map built from those names and ranges, with `Map::new` sorting them |
| Day05.ReadMappingsOfKinds | day05/src/lib.rs:67-80 | lines classified as ranges and then a blank line are collected as exactly those ranges, and the loop stops just after the blank line |
| Day05.WrittenMap | day05/src/lib.rs:52-83 | a written map takes its ranges plus two lines and is laid out as read |
| Day05.WrittenMapHeader | day05/src/lib.rs:56-65 | the first line of a written map reads as a header naming its source and destination |
| Day05.WrittenMapRanges | day05/src/lib.rs:67-80 | the lines after a written map's header are collected as its ranges, up to and past the blank line after them |
| Day05.ReadMapsRoundTrip | day05/src/lib.rs:117-119 | reading written maps one after another gives them back |
| Day05.ReadMapsHead | day05/src/lib.rs:117-119 | the first written map is read back and the remaining lines are the written other maps |
| Day05.WellFormedTail | day05/src/lib.rs:117-119 | the maps after the first of a list of writable maps are writable |
| Day05.MapsLinesSplit | day05/src/lib.rs:117-119 | the lines of several maps start with those of the first |
| Day05.ReadMapsCons | day05/src/lib.rs:117-119 | a map read followed by the maps after it gives them all |
| Day05.ReadMapsEnd | day05/src/lib.rs:117-119 | at the end of the input no further map is read |
| Day05.ReadSeedNumbersRoundTrip | day05/src/lib.rs:96-111 | the written seeds line is read back and the line after it skipped |
| Day05.SeedLineSplits | day05/src/lib.rs:99-100 | a written seed line splits at ": " into "seeds" and the numbers |
| Day05.SeedNumbersParse | day05/src/lib.rs:102-105 | the written numbers split at whitespace and parse back to the seeds |
| Day05.ReadDataRoundTrip | day05/src/lib.rs:113-122 | reading a written almanac gives back its seeds and maps |
| Day05.ReadExample | day05/src/lib.rs:131-142 | the example input reads as seeds 79, 14, 55, 13 and the seed-to-soil map |
| Day05.ExampleMap | day05/src/lib.rs:136-141 | the example's map reads as the map built from (50, 98, 2) and (52, 50, 48) |
| Day05.ExampleSeeds | day05/src/lib.rs:134 | the example's seeds line reads as 79, 14, 55, 13 |
| Day05.ExampleSeedLine | day05/src/lib.rs:134 | the seeds 79, 14, 55, 13 are written as the example's first line |
| Day05.SeedTexts | day05/src/lib.rs:134 | the texts of the example seeds |
| Day05.ExampleMapLines | day05/src/lib.rs:136-141 | the lines of the example map |
| Day05.ExampleHeader | day05/src/lib.rs:136 | the example map's header line |
| Day05.ExampleMappingLines | day05/src/lib.rs:137-140 | the example map's two range lines |
| Day05.ExampleSorted | day05/src/lib.rs:137-140 | the example map's ranges are already in order and its names can be read back |
| Day05.ExampleRangeLines | day05/src/lib.rs:137-140 | the lines of the example ranges |
| Day05.RangeTexts | day05/src/lib.rs:137-140 | the texts of the example ranges' numbers |
| Day06.Distance | day06/src/lib.rs:16-20 | no distance once the press lasts the whole race or longer; otherwise the time left times the speed |
| Day06.DistanceExample | day06/src/lib.rs:124-134 | the race (7, 9) goes 0, 6, 10, 12, 12, 10, 6, 0, 0, 0 for presses 0 to 9 |
| Day06.DistanceDifference | day06/src/lib.rs:16-20 | between two presses the distance changes by the gap between them times what is left of the race after both |
| Day06.DistanceRises | day06/src/lib.rs:16-23 | the distance never falls on the first half of the race |
| Day06.DistanceFalls | day06/src/lib.rs:16-20 | the distance never rises on the second half |
| Day06.DistancePeak | day06/src/lib.rs:16-20 | pressing for half the race goes furthest |
| Day06.FindMin | day06/src/lib.rs:22-39 | the bisection returns the shortest press of the first half that beats the record, or 0 where none does |
| Day06.FindMax | day06/src/lib.rs:41-58 | the bisection returns the longest press of the second half that beats the record, or the duration where none does |
| Day06.Solve | day06/src/lib.rs:62-64 | the pair of the two bounds |
| Day06.SolveIsWinningInterval | day06/src/lib.rs:62-64 | the presses that beat the record are exactly those from the lower to the upper bound; where none does the bounds are 0 and the duration |
| Day06.IsMinUnique | day06/src/lib.rs:22-39 | only one press meets the lower-bound description |
| Day06.IsMaxUnique | day06/src/lib.rs:41-58 | only one press meets the upper-bound description |
| Day06.SolveExamples | day06/src/lib.rs:99-121 | the test races (7, 9), (15, 40) and (30, 200) have bounds (2, 5), (4, 11) and (11, 19) |
| Day06.ZipRaces | day06/src/lib.rs:68-77 | one race per pair the zip pulls, the k-th time with the k-th distance |
| Day06.ZipRacesFails | day06/src/lib.rs:68-77 | the zip fails exactly when a time it pulls, or a distance beside a time, is not a number |
| Day06.WordsOfLine | day06/src/lib.rs:68-70 | the words after the colon of a written line are the numbers' texts |
| Day06.Durations | day06/src/lib.rs:2-5 | the durations of the races, in order |
| Day06.Records | day06/src/lib.rs:2-5 | the records of the races, in order |
| Day06.ZipParsed | day06/src/lib.rs:68-77 | equally many times and distances that read as the races' durations and records zip into those races |
| Day06.ZipTexts | day06/src/lib.rs:68-77 | zipping the races' written durations and records gives the races back |
| Day06.ParseProblemRoundTrip | day06/src/lib.rs:67-78 | reading the written Time and Distance lines gives the races back |
| Day06.DigitCountIsTextLength | day06/src/lib.rs:80-90 | the digit count of a number is the length of its text |
| Day06.ConcatTexts | day06/src/lib.rs:80-85 | the texts of the numbers run together are digits whose value is the numbers written side by side |
| Day06.ConcatSnoc | day06/src/lib.rs:84 | joining one more word appends it |
| Day06.KernedLine | day06/src/lib.rs:81-85 | the words after the colon of a written line run together into the kerned number |
| Day06.ParseKerningRunsDigitsTogether | day06/src/lib.rs:80-93 | the single race lasts the times written side by side, and its record is the distances written side by side |
| Day06.ConcatNonEmpty | day06/src/lib.rs:84 | joining words that start with a non-empty one gives a non-empty text |
| Day06.KernedExample | day06/src/lib.rs:80-93 | times 7, 15, 30 and records 9, 40, 200 read as one race of 71530 with record 940200 |
| Day07.CardRank | day07/src/lib.rs:17-33 | a face's place in the declaration, from which the face is recovered |
| Day07.KindRank | day07/src/lib.rs:6-15 | a kind's place in the declaration, one of seven |
| Day07.CardOfRank | day07/src/lib.rs:17-33 | every place of the declaration holds a face |
| Day07.RanksInjective | day07/src/lib.rs:6-33 | places tell faces and kinds apart, so the derived order compares them by declaration |
| Day07.CardFromCharFaces | day07/src/lib.rs:69-86 | a character reads as a card iff it is a face; the card shows that face; `J` is the joker exactly when jokers are wild; every card but the unused one of Jack and Joker is read back from its face |
| Day07.FromCards | day07/src/lib.rs:43-65 | a hand of other than five cards is an error; otherwise the counting loop and the branches on distinct faces and sorted counts give the kind the repeated faces call for |
| Day07.CountsSnoc | day07/src/lib.rs:48-52 | one more card adds one to its face's count |
| Day07.HandShape | day07/src/lib.rs:48-61 | the counts of five cards lie between one and five, add up to five, and comparing the sorted counts with a literal is comparing multisets |
| Day07.KeysCount | day07/src/lib.rs:54 | one count per distinct face |
| Day07.ValuesCount | day07/src/lib.rs:54 | a count `v` occurs as often as there are faces that occur `v` times |
| Day07.ValuesSum | day07/src/lib.rs:48-54 | the counts add up to the cards counted |
| Day07.TallyAll | day07/src/lib.rs:49-52 | every card is counted under its face |
| Day07.ValuesPositive | day07/src/lib.rs:50-51 | every count is at least one |
| Day07.KindByCounts | day07/src/lib.rs:57-64 | each branch of the match gives the kind the repeated faces call for, and the fallback is unreachable |
| Day07.KindByDistinct | day07/src/lib.rs:57-64 | the number of distinct faces singles out High, Pair and FiveOf and narrows the rest to two kinds, in both directions |
| Day07.CompareCardsEqual | day07/src/lib.rs:35-40 | the lexicographic comparison of cards is Equal iff the cards are the same |
| Day07.CompareCardsFlip | day07/src/lib.rs:35-40 | swapping the arguments reverses the comparison |
| Day07.CompareCardsTrans | day07/src/lib.rs:35-40 | the comparison is transitive |
| Day07.CompareHandsOrder | day07/src/lib.rs:35-40 | the derived ordering of hands is a total order: equal only on equal hands, antisymmetric and transitive |
| Day07.ParseCards | day07/src/lib.rs:99 | the cards parse iff every character is a face, one card per character, each that character's card |
| Day07.HandFrom | day07/src/lib.rs:96-109 | the conversion computes the parse of the line: split at the first space, cards without jokers, their kind, the bid |
| Day07.ParseHandLine | day07/src/lib.rs:96-109 | every hand parsed is valid, and every valid hand is read back from its line |
| Day07.ParseExamples | day07/src/lib.rs:117-134 | "32T3K 765" is one pair and "QQQJA 483" three of a kind with the `J` read as a jack |
| Day07.ParsePairExample | day07/src/lib.rs:119-125 | "32T3K 765" parses to a pair with bid 765 |
| Day07.ParseThreeOfExample | day07/src/lib.rs:127-133 | "QQQJA 483" parses to three of a kind with bid 483 |
| Day07.PairExample | day07/src/lib.rs:122-125 | 3, 2, T, 3, K is one pair |
| Day07.ThreeOfExample | day07/src/lib.rs:130-133 | Q, Q, Q, J, A is three of a kind |
| Day08.Cycle | day08/src/lib.rs:27-28 | the instruction used at each step lies in the list, which is followed from its start and begun again after its end |
| Day08.Iterate | day08/src/lib.rs:23-43 | the nested loops compute the walk: follow the instructions over and over, counting steps, and stop at the first node `end_p` accepts |
| Day08.WalkFirst | day08/src/lib.rs:27-42 | the walk from a step finds the first later step whose name is accepted |
| Day08.IterateFirst | day08/src/lib.rs:23-43 | the result is `s` exactly when the name reached after `s` steps is the first one accepted, at step 1 or later; the start itself is never checked |
| Day08.VisitStops | day08/src/lib.rs:40 | once the walk reaches a name the map does not hold it goes no further (the source panics there) |
| Day08.Gcd | day08/src/lib.rs:54 | the gcd of two numbers not both zero is positive |
| Day08.GcdDivides | day08/src/lib.rs:54 | the gcd divides both numbers |
| Day08.Bezout | day08/src/lib.rs:54 | the gcd is an integer combination of the two numbers |
| Day08.LcmCommon | day08/src/lib.rs:54 | the lcm of two positive numbers is a positive common multiple of both |
| Day08.LcmDivides | day08/src/lib.rs:54 | the lcm divides every common multiple |
| Day08.LcmLeast | day08/src/lib.rs:54 | the lcm is the least common multiple in the divisibility order |
| Day08.ParallelIterate | day08/src/lib.rs:45-55 | an answer exactly when some name ends with the start letter and every such walker reaches a name ending with the end letter; the answer is positive and the least common multiple of their lengths |
| Day08.MoveKey | day08/src/lib.rs:46-54 | taking one more starting name from those left keeps the names seen and left apart |
| Day08.LeastCommonSingle | day08/src/lib.rs:54 | a single walker's length is the least common multiple of itself |
| Day08.FoundPositive | day08/src/lib.rs:29-37 | a walk that is found has taken at least one step |
| Day08.WalkPositive | day08/src/lib.rs:29-37 | a walk found from a step ends at a later step |
| Day08.LcmStep | day08/src/lib.rs:54 | folding one more length into the lcm keeps it the least common multiple of the lengths so far |
| Day08.InstructionsOf | day08/src/lib.rs:61-64 | one instruction per character, Left exactly for `L` and Right for anything else |
| Day08.ParseNodeLine | day08/src/lib.rs:69-73 | a written node line `name = (left, right)` reads back as that entry |
| Day08.FromIterLastWins | day08/src/lib.rs:68 | the map holds exactly the names of the entries, each with the node of its last entry |
| Day08.FromIterKeys | day08/src/lib.rs:68 | the map's keys are exactly the entries' names |
| Day08.FromIterLast | day08/src/lib.rs:68 | a name maps to the node of its last entry |
| Day08.ParseInstructions | day08/src/lib.rs:58-80 | a problem read from lines has the instructions of the first line |
| Day08.NodeLines | day08/src/lib.rs:68-74 | one line per entry |
| Day08.ParseNodesLines | day08/src/lib.rs:68-74 | written node lines read back as their entries |
| Day08.ParseInstructionsLines | day08/src/lib.rs:58-80 | an instruction line, a skipped line and node lines give a problem with those instructions, holding each name with its last node |
| Day09.Differences | day09/src/lib.rs:2-5 | one difference per neighbouring pair of readings, each the later reading minus the earlier |
| Day09.Constant | day09/src/lib.rs:1-27 | a constant series extrapolates to its value in both directions |
| Day09.Arithmetic | day09/src/lib.rs:1-27 | a series growing by `step` each time extrapolates to the next term forwards and the term before the first backwards |
| Day09.DifferencesSnoc | day09/src/lib.rs:2-5 | one more reading at the end adds one difference at the end |
| Day09.DifferencesCons | day09/src/lib.rs:16-19 | one more reading at the front adds one difference at the front |
| Day09.NextExtends | day09/src/lib.rs:1-13 | the extrapolated reading extends the row of differences by the value extrapolated for that row, or by 0 once it is all zero |
| Day09.PrevExtends | day09/src/lib.rs:15-27 | the extrapolated previous reading extends the row of differences at the front the same way |
| Day09.Negate | day09/src/lib.rs:1-13 | the readings negated |
| Day09.NextNegate | day09/src/lib.rs:1-13 | extrapolation is linear: negated readings extrapolate to the negated value |
| Day09.PrevIsReversedNext | day09/src/lib.rs:15-27 | extrapolating backwards is extrapolating forwards over the reversed readings |
| Day10.Grid | day10/src/lib.rs:4-7 | the cells of the grid are exactly the positions inside its rows and columns |
| Day10.StartShapeConnects | day10/src/lib.rs:26-36 | the shape given to the start is a pipe, and each of its openings faces a neighbour that opens back towards the start |
| Day10.StartShapeComplete | day10/src/lib.rs:26-36 | a start two of whose neighbours open towards it always gets a shape (the intended table never reaches `unimplemented!()` there) |
| Day10.StartShapeAsWrittenMissesStraight | day10/src/lib.rs:27-28 | as written, a start between a `7` above and a `J` below, both opening towards it, gets no shape; the intended table gives `\|` |
| Day10.StartShapeAsWrittenConnects | day10/src/lib.rs:26-36 | wherever the rules as written give the start a shape it is the intended one, a pipe whose openings face neighbours opening back towards the start |
| Day10.NewMap | day10/src/lib.rs:10-39 | the map keeps the start, the shape of the grid and every cell other than the start |
| Day10.NewMapRewritesStart | day10/src/lib.rs:16-36 | the start cell is overwritten by the shape the rules as written give its four neighbours, and the map fails exactly when no rule applies (the `unimplemented!()` panic) |
| Day10.IndexOf | day10/src/lib.rs:142 | the first index of the character, or none iff the line lacks it |
| Day10.StartOfFindsS | day10/src/lib.rs:139-146 | the start is on the last line holding an `S`, at its first `S`; without any `S` it is (0, 0) |
| Day10.FindStart | day10/src/lib.rs:139-146 | the loop finds the start so described |
| Day10.StartOfInGrid | day10/src/lib.rs:139-148 | on a rectangular grid the start found is a cell of the grid |
| Day10.ParseInput | day10/src/lib.rs:132-149 | the map is built around the start found, with the start shape as written |
| Day10.PipeNeighboursFollowOpenings | day10/src/lib.rs:108-116 | a pipe leads exactly to the cells beside its two openings |
| Day10.NeighboursUnion | day10/src/lib.rs:106-119 | the cells a generation leads to are the union over its cells |
| Day10.NeighboursOne | day10/src/lib.rs:106-119 | a single cell leads where its pipe leads |
| Day10.ReachGrows | day10/src/lib.rs:96-121 | the cells known after generation `k` are those known before it plus generation `k` |
| Day10.NextLayer | day10/src/lib.rs:119-121 | the next generation is the cells the current one leads to, without duplicates and without the known cells |
| Day10.LayerEmptyStays | day10/src/lib.rs:101 | once a generation is empty every later one is |
| Day10.VisitStep | day10/src/lib.rs:106-117 | visiting one more cell adds where its pipe leads |
| Day10.LayersExtend | day10/src/lib.rs:101-122 | the generations seen so far, extended by the current one, are the first generations of the walk |
| Day10.Visit | day10/src/lib.rs:106-119 | the cells one generation leads to, or failure exactly where a cell is not a pipe (the source panics) |
| Day10.IterateOverPath | day10/src/lib.rs:95-123 | the generations handed to the action are, in order, the cells 0, 1, 2, ... steps from the start, all non-empty, and the walk stops at the first empty one |
| Day10.WalkEnds | day10/src/lib.rs:101 | a walk that reached an empty generation has no later ones and never panics |
| Day10.FindFurthest | day10/src/lib.rs:41-47 | the number of generations less one is the largest step count from the start to a reached cell; failure iff the walk meets a cell that is not a pipe |
| Day10.ApplyRaycast | day10/src/lib.rs:71-93 | the loop computes the ray's count over the row |
| Day10.CastCountsDots | day10/src/lib.rs:78 | only ground cells are counted |
| Day10.CastCountsInside | day10/src/lib.rs:78 | a ground cell is counted exactly when the ray is inside when it reaches it |
| Day10.DashesKeepRay | day10/src/lib.rs:88 | a run of `-` changes nothing |
| Day10.Bend | day10/src/lib.rs:79-87 | a corner, a run of dashes and a corner act as the two corners alone |
| Day10.CrossingsFlipInside | day10/src/lib.rs:79-87 | `F-7` and `L-J` leave the ray on its side; `F-J`, `L-7` and `\|` take it to the other side |
| Day10.CastFromPrefix | day10/src/lib.rs:76-90 | the ray over a prefix continues from the ray over what came before it |
| Day10.CastConcat | day10/src/lib.rs:76-90 | the ray over `a + b` continues from where the ray over `a` stops |
| Day10.RaycastExamplesShort | day10/src/lib.rs:157-161 | the five short test rows count 0, 1, 1, 0 and 0 |
| Day10.RaycastExampleLong1 | day10/src/lib.rs:162 | the first long test row counts 1 |
| Day10.RaycastExampleLong2 | day10/src/lib.rs:163 | the second long test row counts 3 |
| Day10.RaycastExampleLong3 | day10/src/lib.rs:164 | the third long test row counts 4 |
| Day10.Blanked | day10/src/lib.rs:50-61 | the blanked map has the shape of the grid |
| Day10.UnionOfLayers | day10/src/lib.rs:96-121 | the generations together are the cells reached from the start |
| Day10.BlankedMark | day10/src/lib.rs:58-60 | copying one more loop cell into the map |
| Day10.MarkAll | day10/src/lib.rs:54-61 | copying every generation leaves the loop cells' pipes and ground everywhere else |
| Day10.SumRaycasts | day10/src/lib.rs:63 | the sum of the rays' counts over the rows |
| Day10.Mark | day10/src/lib.rs:57-61 | copying one generation's cells from the grid leaves the map blanked everywhere except the cells reached so far |
| Day10.CountInside | day10/src/lib.rs:49-64 | the sum over the rows of the ground cells the ray finds inside the loop, on the map blanked outside the cells reached from the start; failure iff the walk meets a cell that is not a pipe |
| Day11.ManhattanMetric | day11/src/lib.rs:10-12 | the Manhattan distance is symmetric, zero exactly between equal coordinates, and satisfies the triangle inequality |
| Day11.CountBelow | day11/src/lib.rs:15-16 | the count is the length of the leading run of entries below the value |
| Day11.CountBelowSorted | day11/src/lib.rs:15-16 | on sorted distinct entries the count covers every entry below the value |
| Day11.StrictlyIncreasingSpan | day11/src/lib.rs:40-43 | strictly increasing entries inside an interval are no more than its width |
| Day11.CountBelowBound | day11/src/lib.rs:15-20 | the occupied rows below a row number at most that row, so the subtraction never underflows |
| Day11.CountBelowGap | day11/src/lib.rs:15-16 | between two values the count grows, by at most their difference |
| Day11.ShiftMonotone | day11/src/lib.rs:19-20 | shifting keeps strict order |
| Day11.ShiftGap | day11/src/lib.rs:19-20 | between two values the shift adds `factor - 1` for each unoccupied value in between |
| Day11.ShiftForward | day11/src/lib.rs:19-20 | shifting never moves a value back, and with factor 1 does not move it |
| Day11.TransformOrder | day11/src/lib.rs:14-22 | the transform never underflows, keeps the order of rows and of columns, never moves a coordinate back, and with factor 1 moves nothing |
| Day11.LeastExists | day11/src/lib.rs:40-43 | a non-empty set has a least element |
| Day11.Sorted | day11/src/lib.rs:40-43 | the collected and sorted set is strictly increasing and holds exactly the set's elements |
| Day11.Expanded | day11/src/lib.rs:31-51 | one transformed coordinate per galaxy |
| Day11.Expand | day11/src/lib.rs:31-51 | the loop collects the occupied rows and columns, sorts them and transforms every coordinate |
| Day11.ExpandedOrder | day11/src/lib.rs:31-51 | expansion keeps the order of the galaxies' rows and columns, never moves one back, and with factor 1 moves nothing |
| Day11.ExpandedDistance | day11/src/lib.rs:31-51 | expansion never brings two galaxies closer, and with factor 1 keeps every distance |
| Day11.ShiftApart | day11/src/lib.rs:19-20 | two shifted values lie at least as far apart as the values themselves |
| Day11.DistancesBetween | day11/src/lib.rs:58-60 | the distances from one galaxy to the later ones from a point on, in order |
| Day11.DistancesFrom | day11/src/lib.rs:58-60 | the distances from one galaxy to each later galaxy, in order |
| Day11.Distances | day11/src/lib.rs:53-64 | the nested loops list the distance of every pair `i < j`, in lexicographic order |
| Day11.DistancesUpToLength | day11/src/lib.rs:57-61 | the first `i` galaxies contribute `i (2n - i - 1) / 2` distances |
| Day11.DistancesUpToPrefix | day11/src/lib.rs:57-61 | the distances listed so far are a prefix of those listed later |
| Day11.DistancesCount | day11/src/lib.rs:53-64 | the result holds `n (n - 1) / 2` distances, one per pair |
| Day11.DistancesPair | day11/src/lib.rs:53-64 | the distance of the pair `i < j` sits after those of the pairs before it in lexicographic order |
| Day11.LineGalaxies | day11/src/lib.rs:71-73 | the galaxies of one line are its `#` positions, left to right |
| Day11.ReadMap | day11/src/lib.rs:67-77 | the loops collect every `#` of every line as (line index, column) |
| Day11.GalaxiesSpec | day11/src/lib.rs:67-77 | the galaxies are exactly the `#` positions, in strictly increasing row-major order |
| Day13.LargestSpec | day13/src/lib.rs:16-43 | the search gives the largest line of reflection, and fails with "No reflection!" exactly when there is none |
| Day13.LargestIs | day13/src/lib.rs:16-43 | the largest reflecting line is what the search yields |
| Day13.LargestNone | day13/src/lib.rs:42 | no reflecting line gives the error |
| Day13.RangesCount | day13/src/lib.rs:27-33 | both branches compare `min(c, len - c)` pairs, all in bounds, mirrored around the candidate line |
| Day13.RangesMirror | day13/src/lib.rs:29-37 | the zipped pairs all agree exactly when the lines reflect at the candidate |
| Day13.CandidatesSpec | day13/src/lib.rs:17-21 | the candidates are increasing, lie between 1 and the last line, and include every line where two neighbours are equal |
| Day13.ReversedCandidates | day13/src/lib.rs:17-23 | reversed, the candidates descend and include every line of reflection |
| Day13.MirrorsAt | day13/src/lib.rs:35-37 | the `all` over the zipped ranges is true exactly when the lines reflect at the candidate |
| Day13.ReflectingAt | day13/src/lib.rs:16-43 | the loop over the candidates, largest first, returns the first that reflects, else the error |
| Day13.FirstAgreeing | day13/src/lib.rs:26-40 | the first candidate tried that reflects is the largest line of reflection |
| Day13.Transpose | day13/src/lib.rs:45-53 | the loop pushes the columns one by one |
| Day13.TransposeTwice | day13/src/lib.rs:45-53 | the transposition of a rectangle is a rectangle of swapped dimensions with character `j` of string `i` being character `i` of line `j`, and transposing twice gives it back |
| Day13.TransposedMirrors | day13/src/lib.rs:59 | reflecting the transposition between rows is reflecting the pattern between columns |
| Day13.ScoreSpec | day13/src/lib.rs:56-64 | the score names the largest horizontal line of reflection; failing that, the largest vertical one; None exactly when the pattern reflects in neither direction |
| Day13.Groups | day13/src/lib.rs:71-79 | the lines split at every empty line give at least one group |
| Day13.GroupsSnoc | day13/src/lib.rs:73-78 | an empty line starts a new group and any other line joins the last group |
| Day13.GroupsJoin | day13/src/lib.rs:67-86 | the groups hold no empty line and join back to the lines |
| Day13.JoinGroupsSplit | day13/src/lib.rs:67-86 | joining groups without empty lines and splitting again gives the groups back |
| Day13.PatternsOf | day13/src/lib.rs:74 | one pattern per group, holding its lines |
| Day13.ReadPatterns | day13/src/lib.rs:67-86 | the loop collects lines and pushes a pattern at every empty line and, when not empty, at the end |
| Day13.PatternsSpec | day13/src/lib.rs:67-86 | every empty line ends a pattern, even one with no lines; the final group is kept only when not empty |
| Day13.GroupsLineBlank | day13/src/lib.rs:73-78 | a non-empty line forms a group of its own, and each empty line after it opens a new, empty group |
| Day13.GroupsLineBlankBlankLine | day13/src/lib.rs:73-78 | a line, two empty lines and another line give the first line, an empty group and the last line |
| Day13.Examples | day13/src/lib.rs:73-83 | for any two non-empty lines, two empty lines between them give an empty pattern in the middle, and a trailing empty line adds nothing |
| Day14.CountO | day14/src/lib.rs:59-63 | a row holds no more rounded rocks than cells |
| Day14.CountOConcat | day14/src/lib.rs:59-63 | the rounded rocks of joined rows add up |
| Day14.Pack | day14/src/lib.rs:114-116 | packing a stretch keeps its length |
| Day14.PackPacks | day14/src/lib.rs:114-116 | packing a stretch without cube rocks puts all its rounded rocks first, keeps their number and brings in no cube rock |
| Day14.PackWhole | day14/src/lib.rs:114-116 | a stretch ending in a rounded rock is packed whole |
| Day14.PackAppend | day14/src/lib.rs:114-116 | ground after the last rounded rock is left as it is |
| Day14.PackNoRound | day14/src/lib.rs:114-116 | a stretch without rounded rocks is left as it is |
| Day14.LastCube | day14/src/lib.rs:80-85 | the last cube rock of a row that has one |
| Day14.Roll | day14/src/lib.rs:105-122 | a rolled row keeps its length |
| Day14.RollLastCube | day14/src/lib.rs:105-122 | the stretch after the last cube rock is packed on its own |
| Day14.RollAppend | day14/src/lib.rs:105-122 | ground without rounded rocks at the end does not change how the row before it rolls |
| Day14.SplitAtLastCube | day14/src/lib.rs:105-122 | a row with a cube rock rolls as the part before its last cube rock, the cube rock and the packed stretch after it |
| Day14.RollKeeps | day14/src/lib.rs:105-122 | rolling keeps every cube rock where it is, brings in no other and keeps the number of rounded rocks |
| Day14.RollSettles | day14/src/lib.rs:105-122 | in a rolled row every rounded rock lies at the start or just after a cube rock or another rounded rock |
| Day14.PackTwice | day14/src/lib.rs:114-116 | packing twice is packing once |
| Day14.RollTwice | day14/src/lib.rs:105-122 | rolling a row a second time changes nothing |
| Day14.FindGroups | day14/src/lib.rs:74-103 | in position order, a group per cube rock not directly followed by another cube rock with only ground between, and one per run of rounded rocks with its first and last position and its count; ground does not end a run |
| Day14.VisitRock | day14/src/lib.rs:78-96 | one character of the scan keeps the emitted groups equal to the groups of the row read so far: a cube rock closes a pending run of rounded rocks, a rounded rock extends the run or starts one |
| Day14.CubeAfterCube | day14/src/lib.rs:80-85 | a cube rock after a cube rock replaces it as the current group, so only the later one is kept |
| Day14.RoundAfterRound | day14/src/lib.rs:86-88 | a rounded rock after a run, with only ground between, extends the run |
| Day14.CubeStep | day14/src/lib.rs:80-85 | a cube rock closes a pending run and starts a new current group |
| Day14.RoundStep | day14/src/lib.rs:86-92 | a rounded rock extends a run or starts one after a cube rock |
| Day14.OtherStep | day14/src/lib.rs:94 | any other character leaves the groups as they were |
| Day14.RollLeft | day14/src/lib.rs:105-122 | the loop over the groups rolls the row: every stretch between cube rocks has its rounded rocks packed towards its start |
| Day14.RunApplied | day14/src/lib.rs:114-116 | replacing the stretch from the lowest fall to a run's last rock by the run's rocks followed by ground rolls the row up to that rock |
| Day14.RolledStep | day14/src/lib.rs:111-119 | a cube rock moves the lowest fall past itself; a run rewrites its stretch |
| Day14.RollRun | day14/src/lib.rs:114-116 | the stretch from just after a cube rock to a run's last rock rolls to the run's rocks followed by ground |
| Day14.RunPacks | day14/src/lib.rs:115-116 | the padding never underflows, and the stretch packs to the run's rocks followed by ground |
| Day14.RollFinished | day14/src/lib.rs:111-121 | after the last group the row is rolled |
| Day14.RollRest | day14/src/lib.rs:105-122 | once no rounded rock is left after a point, the row is rolled up to it and unchanged after it |
| Day14.Transpose | day14/src/lib.rs:12-18 | the transpose has one row per column of the first row, each as long as the map has rows, and a rectangle stays a rectangle |
| Day14.TransposeAt | day14/src/lib.rs:12-18 | row `c` of the transpose is column `c` of the map |
| Day14.TransposeTwice | day14/src/lib.rs:12-18 | transposing a rectangle twice gives it back |
| Day14.Flip | day14/src/lib.rs:21-28 | every row reversed, and the number of rows kept |
| Day14.FlipTwice | day14/src/lib.rs:21-28 | flipping twice gives the map back |
| Day14.Rotate | day14/src/lib.rs:47-50 | a quarter turn keeps a rectangle a rectangle, with the dimensions swapped |
| Day14.RotateAt | day14/src/lib.rs:47-50 | the turn is clockwise: row `c` of the result is column `c` read from south to north |
| Day14.RotateTwiceAt | day14/src/lib.rs:47-50 | two quarter turns turn the map upside down and mirror it |
| Day14.RotateFour | day14/src/lib.rs:47-50 | four quarter turns give the map back |
| Day14.RollNorth | day14/src/lib.rs:38-44 | tilting keeps the shape of the map |
| Day14.RollNorthColumn | day14/src/lib.rs:38-44 | each column of the tilted map is that column rolled towards the north edge |
| Day14.RollNorthKeeps | day14/src/lib.rs:38-44 | tilting keeps every cube rock, keeps the rounded rocks of each column and leaves them settled |
| Day14.RollNorthBlocks | day14/src/lib.rs:38-44 | tilting leaves the cube rocks where they are |
| Day14.RotateBlocks | day14/src/lib.rs:47-50 | maps with the same cube rocks still have the same cube rocks after a turn |
| Day14.Cycle | day14/src/lib.rs:35 | one step of the fold keeps a rectangle a rectangle |
| Day14.Spin | day14/src/lib.rs:35 | any number of steps keeps a rectangle a rectangle |
| Day14.SpinCycle | day14/src/lib.rs:34-36 | a spin cycle keeps a rectangle a rectangle |
| Day14.SpinBlocks | day14/src/lib.rs:34-36 | after `k` steps the cube rocks are where `k` quarter turns put them |
| Day14.SpinCycleBlocks | day14/src/lib.rs:34-36 | a spin cycle moves rounded rocks only: every cube rock ends where it started |
| Day14.ByColumnsStep | day14/src/lib.rs:52-65 | the column sums grow row by row |
| Day14.Exchange | day14/src/lib.rs:52-65 | summing by columns and summing by rows agree |
| Day14.ColumnLoadIs | day14/src/lib.rs:59-63 | the load of a column counts each rounded rock by its distance from the south edge |
| Day14.LoadSumIs | day14/src/lib.rs:56-64 | the sum over the transposed rows is the sum over the columns |
| Day14.RowSumIs | day14/src/lib.rs:52-65 | a row contributes its rounded rocks times its distance from the south edge |
| Day14.ByRowsIs | day14/src/lib.rs:52-65 | the row-by-row sum is the load by rows |
| Day14.LoadByRows | day14/src/lib.rs:52-65 | the load on the beams is the sum over the rows of each row's rounded rocks times its distance from the south edge, itself included |
| Day15.HashStep | day15/src/lib.rs:70-72 | one step never leaves 16 bits, so the `u16` arithmetic does not wrap, and it keeps the low eight bits of (accumulator + byte) times 17 |
| Day15.HashFromSnoc | day15/src/lib.rs:68-73 | the fold consumes bytes left to right: one more byte takes one more step from the hash of the text before it |
| Day15.HashSnoc | day15/src/lib.rs:68-73 | the hash of the empty text is 0, and each further byte is one step on the hash of the text before it |
| Day15.HashTwo | day15/src/lib.rs:68-73 | a two-byte text takes two steps from 0 |
| Day15.HashSamples | day15/src/lib.rs:68-73 | "rn" and "cm" hash to 0, "qp" to 1, and "pc", "ot" and "ab" to 3 |
| Day15.LabelsCons | day15/src/lib.rs:15-18 | the labels of a box are its first lens's label and those of the rest |
| Day15.Lookup | day15/src/lib.rs:15-18 | a label shows no focal length exactly when no lens of the box carries it |
| Day15.New | day15/src/lib.rs:28-30 | a new box is empty and shows no label |
| Day15.IsEmpty | day15/src/lib.rs:32-34 | a box is empty iff it holds no label, and an empty box has no power |
| Day15.Filter | day15/src/lib.rs:38 | the kept lenses are no more than before and none carries the label |
| Day15.Remove | day15/src/lib.rs:36-40 | the box after removal is no larger and holds no lens with the label |
| Day15.RemoveLookup | day15/src/lib.rs:36-40 | after removal the label is gone, every other label shows the focal length it showed before, and labels stay unique |
| Day15.FilterLookup | day15/src/lib.rs:38 | filtering removes exactly the label and keeps what the other labels show |
| Day15.FilterUnique | day15/src/lib.rs:38 | filtering keeps labels unique |
| Day15.FilterAppend | day15/src/lib.rs:38 | filtering distributes over concatenation, so the kept lenses stay in their order |
| Day15.FilterAbsent | day15/src/lib.rs:38 | a box without the label is returned as it was |
| Day15.Swap | day15/src/lib.rs:45-51 | every lens with the label becomes the new lens in its own place, and every other lens stays |
| Day15.Replace | day15/src/lib.rs:42-57 | with the label present, the lenses with it are replaced in place; without it, the new lens is appended at the back |
| Day15.ReplaceLookup | day15/src/lib.rs:42-57 | after replacement the label shows the new focal length, every other label shows what it showed before, and labels stay unique |
| Day15.SwapLabels | day15/src/lib.rs:45-51 | replacing in place keeps the labels |
| Day15.SwapLookup | day15/src/lib.rs:45-51 | replacing in place makes the label show the new focal length |
| Day15.SwapOthers | day15/src/lib.rs:45-51 | replacing in place leaves what the other labels show |
| Day15.AppendLookup | day15/src/lib.rs:52-56 | appending a lens with a new label adds the label and leaves the others |
| Day15.WeightedSnoc | day15/src/lib.rs:59-65 | a lens at the back adds its focal length times its slot |
| Day15.PowerSnoc | day15/src/lib.rs:59-65 | adding a lens at the back adds its focal length times its one-based slot |
| Day15.PowerBound | day15/src/lib.rs:59-65 | a box of `n` lenses has power at most 255 · n(n+1)/2 |
| Day15.SlotBound | day15/src/lib.rs:59-65 | one more slot keeps that bound |
| Day15Part2.ParseStep | day15/src/bin/part2.rs:13-21 | a step is a removal exactly when its text ends with `-`; the label of a parsed step is a proper prefix of its text |
| Day15Part2.ParseStepText | day15/src/bin/part2.rs:13-21 | writing a step and reading it back gives the step, when an inserted label holds no `=` |
| Day15Part2.StepsOf | day15/src/bin/part2.rs:12 | one parsed step per text, each with an ASCII label |
| Day15Part2.Apply | day15/src/bin/part2.rs:13-21 | a step leaves 256 boxes and changes only the box at its label's hash |
| Day15Part2.Arranged | day15/src/bin/part2.rs:10-22 | the steps applied in turn to 256 empty boxes leave 256 boxes |
| Day15Part2.ArrangedFiled | day15/src/bin/part2.rs:10-22 | after the steps every box holds each label once, and only labels that hash to its own index |
| Day15Part2.ApplyFiled | day15/src/bin/part2.rs:10-22 | one step keeps every lens in the box of its label's hash and the labels of each box distinct |
| Day15Part2.FilteredFrom | day15/src/lib.rs:38 | each lens kept by a removal was a lens of the box |
| Day15Part2.ArrangedLookup | day15/src/bin/part2.rs:10-22 | the boxes act as a map from labels to focal lengths: the box at a label's hash shows the focal length its latest insertion left, unless a removal came after it, and every other box lacks the label |
| Day15Part2.ArrangedBox | day15/src/bin/part2.rs:10-22 | a box ends as the steps routed to it alone would leave it: the other steps never touch it |
| Day15Part2.PowerUpToEmpty | day15/src/bin/part2.rs:26-31 | empty boxes add nothing to the focusing power |
| Day15Part2.RunStep | day15/src/bin/part2.rs:13-21 | one pass of the first loop overwrites the box at the label's hash with the box after the step |
| Day15Part2.TotalPower | day15/src/bin/part2.rs:24-31 | the second loop sums each box's power times its one-based number |
| Day15Part2.Focus | day15/src/bin/part2.rs:5-33 | the answer is the focusing power of the boxes the steps leave, starting from 256 empty ones |
| Day15Part2.RoutedAppend | day15/src/bin/part2.rs:12-22 | the steps of two runs reach each box in turn |

## Left out

- Day 24 is not part of this model: its numbers are a fixed-point type from another crate, and intersections use rounding division and an epsilon test.
- `TerrainMap::hash` (day14/src/lib.rs:30-32) and the cycle search of day14/src/bin/part2.rs are not part of this model. Both rest on MD5 digests of the map.
- `Graph::to_dot` (day25/src/graph.rs:104-124) and `Map::print` / `print_map` (day10/src/lib.rs:66-68, 125-130) only print, so they are left out.
- Reading stdin, `BufRead` handling, `println!` and `eprintln!` are left out. Parsers that read a stream take its lines as a sequence, and day 15 takes the comma-separated steps of its input line as a sequence of strings.
- The `main` functions that only fold a library result over the input lines are left out. The model states the library result instead. This covers the first-part binaries of days 2, 4, 5, 7, 13, 14, 15 and 25, and the binaries of days 6, 8, 9, 10, 11 and 19.
- These binaries are not part of this model, because they call functions the libraries do not define:
  - day03/src/bin/part1.rs and part2.rs;
  - day05/src/bin/part2.rs;
  - day07/src/bin/part2.rs;
  - day13/src/bin/part2.rs;
  - day02/src/bin/part2.rs.
- `read_problem` of day 19 (day19/src/lib.rs:244-270) is left out. It reads workflows and parts from the input; `compile_workflow` and the evaluator it feeds are modelled.
- `HashMap` and `HashSet` iteration order is left open:
  - `find_path` may return any augmenting path;
  - `dfs`, `min_cut` and `partition` are stated up to the order of their lists;
  - the walkers of `parallel_iterate` are taken in any order.

  The model does not fix which cut is found when several leave the sink out of the source's reach.
- `num::integer::lcm` (day08/src/lib.rs:54) is defined in the model through the gcd, with its least-common-multiple property proved.
- Machine integer widths are unbounded except where the source relies on them: the HASH accumulator is proved to fit 16 bits, and `Edge::residual_capacity` models its `as usize` cast.
- Day15Part2.Focus: the `u32` total is an unbounded `nat`. Wrap-around of that sum is not modelled; `Day15.PowerBound` bounds the power of one box.
- Day15Part2.Focus: requires every step to be ASCII and to parse, since an unparsable step makes the source panic on `unwrap`.
- Day25Graph.Graph.FindPath: does not state that the path it returns is a shortest one. Its breadth-first order would make it one; the contract promises a simple path of positive residual capacity from the source to the sink, with its bottleneck as `max_flow`.
- Day25Graph.Graph.FordFulkerson: does not state that the result is a maximum flow. Flow conservation at the inner vertices, zero starting flows and the max-flow min-cut argument are not modelled; the contract states the loop's stopping condition, that no augmenting path is left.
- Day25Graph.Graph.FordFulkerson: requires that the source is itself named "sink" or has no neighbour named "sink". Without that condition the as-written loop breaks the residual-graph invariant (see Findings), so nothing is claimed there.
- Day25Lib.ReadProblem: requires at least two lines, each holding ": ". The source panics otherwise.
- Day06.FindMax: requires a race of at least 2 ms, because `mid - 1` underflows in `usize` for shorter races. Day06.Solve carries the same requirement.
- Day06.Distance: the `u64` product is unbounded here.
- Day04.Value: requires at most 64 matches, because a wider shift overflows the `u64`.
- Day04.ParseExample: parses `CardText(1, …)`. In the puzzle's two-character columns that text is the test's line, double spaces included. The character-by-character equality with the literal is not stated.
- Day11.Distances: requires at least one galaxy, because `num_coords - 1` underflows in `usize` on an empty map.
- Day11.Transform: requires that no more occupied rows or columns lie below a coordinate than its value, so `row - row_count` does not underflow. `Day11.CountBelowBound` discharges this for the sorted unique rows `expand` uses.
- Day13.ReflectingAt: requires at least one line, because `lines.len() - 1` underflows otherwise. Day13.FindReflectionScore also requires the lines to be transposable when no horizontal line is found, since `transpose` panics on a line shorter than the first.
- Day09.FindNext and Day09.FindPrev: require a non-empty series, because the source panics on an empty one.
- Day14.RollNorth and Day14.SpinCycle: require a rectangular map with a non-empty first row. On a ragged map whose first row is the shortest, the source runs and cuts the longer rows, which is not modelled.
- Day10.NewMap, Day10.FindFurthest and Day10.CountInside: require a rectangular grid holding the start. Walking off the grid or onto a cell that is not a pipe is `None` rather than a panic.
- Day19.RecTraverse and Day19.Traverse: require an interior root, because the source panics on a leaf root. They also require every test of the tree to name x, m, a or s, because `split_using` panics on any other attribute and the traversal visits every node.
- Day08.Iterate: takes a `fuel` bound of passes over the instructions, because the source loops forever when the end is never reached. `OutOfFuel` stands for that. Day08.ParallelIterate passes the same bound to each walker.
- Day19.IsAccepted and Day19.BuildTree: take a `fuel` bound on the number of jumps between workflows, because a cycle of workflows makes the source loop or recurse forever. `Day19.RunCodeFuelMonotone` shows that more fuel never changes a decided result.
- Day01: `str::len` counts bytes and slicing panics off a character boundary. The model treats text as ASCII characters.
- Day01Part2: some test lines of day01/src/bin/part2.rs are not stated as lemmas about this scanner: the mixed lines "abcone2threexyz" and "7pqrstsixteen" (lines 87-88), and the digit-only lines (lines 72-75). The digit-only lines are stated for the first part in `Day01Part1.Examples` and `Day01Part1.SingleDigitExample`.
- Day07: the `compare_hands` test (day07/src/lib.rs:137-143) reads the file `input.small`, which is not part of this model. Hand order is stated for all hands instead.
- Day07.FromCards: sorting `card_count` and comparing it with `[1, 2, 2]` or `[1, 4]` is modelled as a comparison of multisets, which is the same test.
- Day04Part2.CountCopies: works on each card's number of matches, as computed by `Day04.WinnerCount`, rather than on the card text.
- Day10: `to_uppercase` (day10/src/lib.rs:59) changes no pipe character, so the model copies cells unchanged.

## Findings

| source | as written | input that shows it | evidently intended | confidence | as-written member | corrected member |
|---|---|---|---|---|---|---|
| day25/src/graph.rs:48 | the augmentation loop starts from the literal vertex "sink" rather than the source, so its first step adds the path's flow to "sink"->source and subtracts it from source->"sink" | a source `s` joined to a vertex named "sink", with `t` as the target: augmenting along `s t` and then `s a t` pushes 2 units onto the unit edge "sink"->`s`, whose residual capacity goes negative and wraps in the `usize` cast | start the loop at the source, making its first step the no-op pair (source, source); the flows then stay skew-symmetric and within capacity | high, not executed | Day25Graph.AsWrittenOverflowsResidual | Day25Graph.AugmentKeepsInvariants |
| day19/src/lib.rs:63-69 | `split_range` does not clamp the split point to the current range, so a later test on the same attribute can widen it | the workflow tree `x<5` then `x<10`, accepting in the inner yes-branch: the box 1..10 holds x = 7, which the tree rejects, and 9 values of x are counted instead of 4 | clamp the split point into the current range, so the halves are exactly the values that pass and fail | high, not executed | Day19.TraverseAsWrittenOvercounts | Day19.ClampedSplitRange |
| day10/src/lib.rs:26-36 | the start shape rules produce a straight pipe only when a literal `\|` (or `-`) sits on both sides | the loop `F7 / \|S / LJ`: the start has a `7` above and a `J` below, both opening towards it, yet no rule applies and `unimplemented!()` is reached | choose the shape from the two neighbours that open towards the start | medium, not executed | Day10.StartShapeAsWrittenMissesStraight | Day10.StartShapeComplete |

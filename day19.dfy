/** Day 19 (day19/src/lib.rs): workflows of rating tests sort machine parts. A part is
    accepted by running the workflows from "in"; the same workflows, unfolded into a
    decision tree, split the whole space of ratings 1..4000 into boxes of accepted parts. */
module Day19 {
  import opened Wrappers
  import opened Strings

  datatype Action = Accept | Reject | JumpTo(name: string)

  /** `Action::from`. */
  function ActionFrom(s: string): Action {
    if s == "A" then Accept else if s == "R" then Reject else JumpTo(s)
  }

  /** The text an action is written as in a workflow. */
  function ActionText(a: Action): string {
    match a
    case Accept => "A"
    case Reject => "R"
    case JumpTo(name) => name
  }

  /** "A" is Accept, "R" is Reject, and any other text jumps to the workflow of that name. */
  lemma ActionFromText(a: Action)
    requires a.JumpTo? ==> a.name != "A" && a.name != "R"
    ensures ActionFrom(ActionText(a)) == a
  {
  }

  datatype Bytecode = Comparison(op: char, attr: char, value: nat, act: Action) | Do(act: Action)

  datatype Workflow = Workflow(bytecode: seq<Bytecode>)

  datatype Part = Part(x: nat, m: nat, a: nat, s: nat)

  predicate IsAttr(c: char) {
    c == 'x' || c == 'm' || c == 'a' || c == 's'
  }

  /** `Part::get_rating`; any other attribute is `unimplemented!()`. */
  function GetRating(p: Part, attr: char): nat
    requires IsAttr(attr)
  {
    match attr
    case 'x' => p.x
    case 'm' => p.m
    case 'a' => p.a
    case 's' => p.s
  }

  /** The test of a comparison: `<` is less-than, any other operator is greater-than. */
  predicate Holds(op: char, rating: nat, value: nat) {
    if op == '<' then rating < value else rating > value
  }

  // ---------------------------------------------------------------------------
  // Boxes of ratings (`AcceptablePart`)

  /** `Range<usize>`: `start..end`, empty when `end <= start`. */
  datatype Range = Range(start: nat, end: nat)

  predicate Contains(r: Range, v: nat) {
    r.start <= v < r.end
  }

  /** `Range::len`. */
  function Len(r: Range): nat {
    if r.start < r.end then r.end - r.start else 0
  }

  /** `split_range` as written: the values passing the test and the values failing it,
      as long as they come from `current`. When the split point lies outside `current`
      one half reaches past it (see `SplitRangeOverreaches`). */
  function SplitRange(current: Range, op: char, splitPoint: nat): (r: (Range, Range))
    ensures forall v :: Contains(current, v) ==>
      && (Contains(r.0, v) <==> Holds(op, v, splitPoint))
      && (Contains(r.1, v) <==> !Holds(op, v, splitPoint))
  {
    if op == '<' then (Range(current.start, splitPoint), Range(splitPoint, current.end))
    else (Range(splitPoint + 1, current.end), Range(current.start, splitPoint + 1))
  }

  lemma SplitRangeOverreaches()
    ensures SplitRange(Range(1, 5), '<', 10).0 == Range(1, 10)
    ensures Contains(SplitRange(Range(1, 5), '<', 10).0, 7) && !Contains(Range(1, 5), 7)
  {
  }

  function Min(a: nat, b: nat): nat {
    if a <= b then a else b
  }

  function Max(a: nat, b: nat): nat {
    if a <= b then b else a
  }

  /** `split_range` as intended: both halves stay inside `current`. */
  function ClampedSplitRange(current: Range, op: char, splitPoint: nat): (r: (Range, Range))
    ensures forall v :: (Contains(r.0, v) <==> Contains(current, v) && Holds(op, v, splitPoint))
    ensures forall v :: (Contains(r.1, v) <==> Contains(current, v) && !Holds(op, v, splitPoint))
    ensures Len(r.0) + Len(r.1) == Len(current)
  {
    var q := if op == '<' then splitPoint else splitPoint + 1;
    var below := Range(current.start, Min(q, current.end));
    var above := Range(Max(q, current.start), current.end);
    if op == '<' then (below, above) else (above, below)
  }

  /** Where the split point lies inside the range the code as written agrees with the
      intended split. */
  lemma SplitRangeInside(current: Range, op: char, splitPoint: nat)
    requires current.start <= current.end
    requires var q := if op == '<' then splitPoint else splitPoint + 1; current.start <= q <= current.end
    ensures SplitRange(current, op, splitPoint) == ClampedSplitRange(current, op, splitPoint)
  {
  }

  datatype Box = Box(x: Range, m: Range, a: Range, s: Range)

  /** `AcceptablePart::new`: every rating from 1 to 4000. */
  function NewBox(): (b: Box)
    ensures forall c :: IsAttr(c) ==> Attr(b, c) == Range(1, 4001) && Len(Attr(b, c)) == 4000
  {
    Box(Range(1, 4001), Range(1, 4001), Range(1, 4001), Range(1, 4001))
  }

  function Attr(b: Box, attr: char): Range
    requires IsAttr(attr)
  {
    match attr
    case 'x' => b.x
    case 'm' => b.m
    case 'a' => b.a
    case 's' => b.s
  }

  function WithAttr(b: Box, attr: char, r: Range): (b': Box)
    requires IsAttr(attr)
    ensures Attr(b', attr) == r
    ensures forall c :: IsAttr(c) && c != attr ==> Attr(b', c) == Attr(b, c)
  {
    match attr
    case 'x' => b.(x := r)
    case 'm' => b.(m := r)
    case 'a' => b.(a := r)
    case 's' => b.(s := r)
  }

  predicate InBox(p: Part, b: Box) {
    Contains(b.x, p.x) && Contains(b.m, p.m) && Contains(b.a, p.a) && Contains(b.s, p.s)
  }

  lemma InBoxAttrs(p: Part, b: Box)
    ensures InBox(p, b) <==> forall c :: IsAttr(c) ==> Contains(Attr(b, c), GetRating(p, c))
  {
    assert IsAttr('x') && IsAttr('m') && IsAttr('a') && IsAttr('s');
  }

  /** The split of one range, as written or as intended. */
  function SplitBy(r: Range, op: char, splitPoint: nat, clamp: bool): (Range, Range) {
    if clamp then ClampedSplitRange(r, op, splitPoint) else SplitRange(r, op, splitPoint)
  }

  /** `split_using`: split the named attribute's range (as written when `clamp` is false),
      copy the other three into both halves. */
  function SplitUsing(b: Box, op: char, attr: char, splitPoint: nat, clamp: bool): (r: (Box, Box))
    requires IsAttr(attr)
    ensures forall c :: IsAttr(c) && c != attr ==> Attr(r.0, c) == Attr(b, c) && Attr(r.1, c) == Attr(b, c)
    ensures (Attr(r.0, attr), Attr(r.1, attr)) == SplitBy(Attr(b, attr), op, splitPoint, clamp)
  {
    var (r1, r2) := SplitBy(Attr(b, attr), op, splitPoint, clamp);
    (WithAttr(b, attr, r1), WithAttr(b, attr, r2))
  }

  /** A part of the box lands in the first half iff it passes the comparison, and in the
      second iff it fails it. */
  lemma SplitUsingSeparates(b: Box, op: char, attr: char, splitPoint: nat, clamp: bool, p: Part)
    requires IsAttr(attr) && InBox(p, b)
    ensures InBox(p, SplitUsing(b, op, attr, splitPoint, clamp).0) <==> Holds(op, GetRating(p, attr), splitPoint)
    ensures InBox(p, SplitUsing(b, op, attr, splitPoint, clamp).1) <==> !Holds(op, GetRating(p, attr), splitPoint)
  {
    var (y, n) := SplitUsing(b, op, attr, splitPoint, clamp);
    InBoxAttrs(p, b);
    InBoxAttrs(p, y);
    InBoxAttrs(p, n);
  }

  /** With the intended split, both halves hold only parts of the box. */
  lemma ClampedHalvesInside(b: Box, op: char, attr: char, splitPoint: nat, p: Part)
    requires IsAttr(attr)
    ensures InBox(p, SplitUsing(b, op, attr, splitPoint, true).0) ==> InBox(p, b)
    ensures InBox(p, SplitUsing(b, op, attr, splitPoint, true).1) ==> InBox(p, b)
  {
    var (y, n) := SplitUsing(b, op, attr, splitPoint, true);
    InBoxAttrs(p, b);
    InBoxAttrs(p, y);
    InBoxAttrs(p, n);
  }

  /** `combinations`: the product of the four range lengths. */
  function Combinations(b: Box): nat {
    Len(b.x) * Len(b.m) * Len(b.a) * Len(b.s)
  }

  /** The product of the lengths of the three attributes other than `attr`. */
  function Others(b: Box, attr: char): nat
    requires IsAttr(attr)
  {
    match attr
    case 'x' => Len(b.m) * Len(b.a) * Len(b.s)
    case 'm' => Len(b.x) * Len(b.a) * Len(b.s)
    case 'a' => Len(b.x) * Len(b.m) * Len(b.s)
    case 's' => Len(b.x) * Len(b.m) * Len(b.a)
  }

  lemma CombinationsAt(b: Box, attr: char)
    requires IsAttr(attr)
    ensures Combinations(b) == Len(Attr(b, attr)) * Others(b, attr)
  {
    Rotate(Len(b.x), Len(b.m), Len(b.a), Len(b.s));
  }

  lemma Rotate(x: nat, m: nat, a: nat, s: nat)
    ensures x * m * a * s == m * (x * a * s)
    ensures x * m * a * s == a * (x * m * s)
    ensures x * m * a * s == s * (x * m * a)
  {
    assert x * m == m * x;
    assert x * m * a == a * (x * m);
    assert x * m * a * s == s * (x * m * a);
    assert (x * m * s) * a == (x * m) * (s * a) == (x * m) * (a * s) == (x * m * a) * s;
    assert m * (x * a * s) == (m * x) * (a * s);
    assert (x * m * a) * s == (x * m) * (a * s);
  }

  /** The intended split shares out the combinations of the box between its halves. */
  lemma SplitUsingCombinations(b: Box, op: char, attr: char, splitPoint: nat)
    requires IsAttr(attr)
    ensures Combinations(SplitUsing(b, op, attr, splitPoint, true).0)
          + Combinations(SplitUsing(b, op, attr, splitPoint, true).1) == Combinations(b)
  {
    var (y, n) := SplitUsing(b, op, attr, splitPoint, true);
    var k1, k2 := Len(Attr(y, attr)), Len(Attr(n, attr));
    assert k1 + k2 == Len(Attr(b, attr));
    assert Others(y, attr) == Others(b, attr) == Others(n, attr) by {
      assert IsAttr('x') && IsAttr('m') && IsAttr('a') && IsAttr('s');
    }
    CombinationsAt(y, attr);
    CombinationsAt(n, attr);
    CombinationsAt(b, attr);
    Distribute(k1, k2, Others(b, attr));
  }

  lemma Distribute(k1: nat, k2: nat, rest: nat)
    ensures k1 * rest + k2 * rest == (k1 + k2) * rest
  {
  }

  // ---------------------------------------------------------------------------
  // The decision tree

  /** `Node`; an interior node tests `cond` = (operator, attribute, value). */
  datatype Node = AcceptLeaf | RejectLeaf | Interior(cond: (char, char, nat), yes: Node, no: Node)

  /** Every test names one of the four attributes. */
  predicate ValidTree(n: Node) {
    match n
    case Interior(cond, yes, no) => IsAttr(cond.1) && ValidTree(yes) && ValidTree(no)
    case _ => true
  }

  /** The leaf a part reaches, following the tests from the root: true for Accept. */
  predicate Decide(n: Node, p: Part)
    requires ValidTree(n)
  {
    match n
    case AcceptLeaf => true
    case RejectLeaf => false
    case Interior(cond, yes, no) =>
      if Holds(cond.0, GetRating(p, cond.1), cond.2) then Decide(yes, p) else Decide(no, p)
  }

  /** What one branch of `rec_traverse` adds for the box that reaches `child`: nothing at a
      Reject leaf, the box itself at an Accept leaf, the boxes of the subtree otherwise. */
  function Branch(child: Node, part: Box, clamp: bool): seq<Box>
    requires ValidTree(child)
    decreases child, 1
  {
    match child
    case RejectLeaf => []
    case AcceptLeaf => [part]
    case Interior(_, _, _) => Boxes(child, part, clamp)
  }

  /** The boxes `rec_traverse` returns from an interior node: the box is split by the node's
      test, the yes half goes down the yes branch and the no half down the no branch. */
  function Boxes(n: Node, part: Box, clamp: bool): seq<Box>
    requires n.Interior? && ValidTree(n)
    decreases n, 0
  {
    var (yesPart, noPart) := SplitUsing(part, n.cond.0, n.cond.1, n.cond.2, clamp);
    Branch(n.yes, yesPart, clamp) + Branch(n.no, noPart, clamp)
  }

  /** `rec_traverse`, collecting the boxes of the two branches in turn. */
  method RecTraverse(n: Node, part: Box) returns (result: seq<Box>)
    requires n.Interior? && ValidTree(n)
    ensures result == Boxes(n, part, false)
    decreases n
  {
    result := [];
    var (yesPart, noPart) := SplitUsing(part, n.cond.0, n.cond.1, n.cond.2, false);
    var branches := [(yesPart, n.yes), (noPart, n.no)];
    for k := 0 to 2
      invariant result == if k == 0 then [] else if k == 1 then Branch(n.yes, yesPart, false)
        else Branch(n.yes, yesPart, false) + Branch(n.no, noPart, false)
    {
      var (newPart, further) := branches[k];
      match further
      case RejectLeaf =>
      case AcceptLeaf =>
        result := result + [newPart];
      case Interior(_, _, _) =>
        assert further == n.yes || further == n.no;
        var sub := RecTraverse(further, newPart);
        result := result + sub;
    }
  }

  /** `traverse`: the boxes of the whole rating space that reach Accept leaves. */
  method Traverse(n: Node) returns (result: seq<Box>)
    requires n.Interior? && ValidTree(n)
    ensures result == Boxes(n, NewBox(), false)
  {
    result := RecTraverse(n, NewBox());
  }

  /** Some box holds the part. */
  predicate Covered(boxes: seq<Box>, p: Part) {
    exists i :: 0 <= i < |boxes| && InBox(p, boxes[i])
  }

  lemma CoveredAppend(left: seq<Box>, right: seq<Box>, p: Part)
    ensures Covered(left + right, p) <==> Covered(left, p) || Covered(right, p)
  {
    if Covered(left + right, p) {
      var i :| 0 <= i < |left + right| && InBox(p, (left + right)[i]);
      if i >= |left| {
        assert right[i - |left|] == (left + right)[i];
      }
    }
    if Covered(left, p) {
      var i :| 0 <= i < |left| && InBox(p, left[i]);
      assert (left + right)[i] == left[i];
    }
    if Covered(right, p) {
      var i :| 0 <= i < |right| && InBox(p, right[i]);
      assert (left + right)[|left| + i] == right[i];
    }
  }

  /** Even as written, every part of the box that the tree accepts lies in a box the
      traversal returns. */
  lemma {:induction false} BranchComplete(child: Node, b: Box, clamp: bool, p: Part)
    requires ValidTree(child) && InBox(p, b) && Decide(child, p)
    ensures Covered(Branch(child, b, clamp), p)
    decreases child
  {
    match child
    case AcceptLeaf =>
      assert InBox(p, Branch(child, b, clamp)[0]);
    case Interior(cond, yes, no) =>
      var (yb, nb) := SplitUsing(b, cond.0, cond.1, cond.2, clamp);
      SplitUsingSeparates(b, cond.0, cond.1, cond.2, clamp, p);
      CoveredAppend(Branch(yes, yb, clamp), Branch(no, nb, clamp), p);
      assert Branch(child, b, clamp) == Branch(yes, yb, clamp) + Branch(no, nb, clamp);
      if Holds(cond.0, GetRating(p, cond.1), cond.2) {
        BranchComplete(yes, yb, clamp, p);
      } else {
        BranchComplete(no, nb, clamp, p);
      }
  }

  /** With the intended split, a part lies in a returned box exactly when it lies in the
      starting box and the tree accepts it. */
  lemma {:induction false} BranchExact(child: Node, b: Box, p: Part)
    requires ValidTree(child)
    ensures Covered(Branch(child, b, true), p) <==> InBox(p, b) && Decide(child, p)
    decreases child
  {
    match child
    case RejectLeaf =>
    case AcceptLeaf =>
      assert Branch(child, b, true) == [b];
      if InBox(p, b) {
        assert InBox(p, Branch(child, b, true)[0]);
      }
    case Interior(cond, yes, no) =>
      var (yb, nb) := SplitUsing(b, cond.0, cond.1, cond.2, true);
      BranchExact(yes, yb, p);
      BranchExact(no, nb, p);
      CoveredAppend(Branch(yes, yb, true), Branch(no, nb, true), p);
      ClampedHalvesInside(b, cond.0, cond.1, cond.2, p);
      if InBox(p, b) {
        SplitUsingSeparates(b, cond.0, cond.1, cond.2, true, p);
      }
  }

  /** The intended `traverse` covers exactly the accepted parts with ratings 1 to 4000. */
  lemma TraverseExact(n: Node, p: Part)
    requires n.Interior? && ValidTree(n)
    ensures Covered(Boxes(n, NewBox(), true), p) <==>
      1 <= p.x <= 4000 && 1 <= p.m <= 4000 && 1 <= p.a <= 4000 && 1 <= p.s <= 4000 && Decide(n, p)
  {
    BranchExact(n, NewBox(), p);
  }

  /** With the intended split no part lies in two of the returned boxes. */
  lemma {:induction false} BranchDisjoint(child: Node, b: Box, p: Part, i: nat, j: nat)
    requires ValidTree(child) && i < j < |Branch(child, b, true)|
    ensures !(InBox(p, Branch(child, b, true)[i]) && InBox(p, Branch(child, b, true)[j]))
    decreases child
  {
    match child
    case Interior(cond, yes, no) =>
      var (yb, nb) := SplitUsing(b, cond.0, cond.1, cond.2, true);
      var left, right := Branch(yes, yb, true), Branch(no, nb, true);
      assert Branch(child, b, true) == left + right;
      if j < |left| {
        BranchDisjoint(yes, yb, p, i, j);
      } else if i >= |left| {
        BranchDisjoint(no, nb, p, i - |left|, j - |left|);
      } else if InBox(p, left[i]) && InBox(p, right[j - |left|]) {
        BranchExact(yes, yb, p);
        BranchExact(no, nb, p);
        ClampedHalvesInside(b, cond.0, cond.1, cond.2, p);
        SplitUsingSeparates(b, cond.0, cond.1, cond.2, true, p);
        assert false;
      }
  }

  /** The answer of part two: the combinations of all returned boxes. */
  function SumCombinations(boxes: seq<Box>): nat {
    if boxes == [] then 0 else Combinations(boxes[0]) + SumCombinations(boxes[1..])
  }

  lemma {:induction false} SumCombinationsAppend(left: seq<Box>, right: seq<Box>)
    ensures SumCombinations(left + right) == SumCombinations(left) + SumCombinations(right)
    decreases |left|
  {
    if left == [] {
      assert left + right == right;
    } else {
      assert (left + right)[0] == left[0];
      assert (left + right)[1..] == left[1..] + right;
      SumCombinationsAppend(left[1..], right);
    }
  }

  /** With the intended split the boxes never count more than the starting box holds. */
  lemma {:induction false} BranchCombinations(child: Node, b: Box)
    requires ValidTree(child)
    ensures SumCombinations(Branch(child, b, true)) <= Combinations(b)
    decreases child
  {
    match child
    case RejectLeaf =>
    case AcceptLeaf =>
      assert Branch(child, b, true) == [b];
    case Interior(cond, yes, no) =>
      var (yb, nb) := SplitUsing(b, cond.0, cond.1, cond.2, true);
      BranchCombinations(yes, yb);
      BranchCombinations(no, nb);
      SumCombinationsAppend(Branch(yes, yb, true), Branch(no, nb, true));
      SplitUsingCombinations(b, cond.0, cond.1, cond.2);
  }

  /** As written, a test whose value lies outside the range left by an earlier test on the
      same attribute widens the range: x<5 followed by x<10 accepts x = 7, which the
      tree rejects, and counts 9 values of x instead of 4. */
  lemma TraverseAsWrittenOvercounts()
    ensures var t := Interior(('<', 'x', 5), Interior(('<', 'x', 10), AcceptLeaf, RejectLeaf), RejectLeaf);
      var p := Part(7, 1, 1, 1);
      && ValidTree(t) && !Decide(t, p)
      && Covered(Boxes(t, NewBox(), false), p)
      && SumCombinations(Boxes(t, NewBox(), false)) == 9 * 4000 * 4000 * 4000
      && SumCombinations(Boxes(t, NewBox(), true)) == 4 * 4000 * 4000 * 4000
  {
    var t := Interior(('<', 'x', 5), Interior(('<', 'x', 10), AcceptLeaf, RejectLeaf), RejectLeaf);
    var whole := Range(1, 4001);
    assert Boxes(t, NewBox(), false) == [Box(Range(1, 10), whole, whole, whole)];
    assert Boxes(t, NewBox(), true) == [Box(Range(1, 5), whole, whole, whole)];
    assert InBox(Part(7, 1, 1, 1), Boxes(t, NewBox(), false)[0]);
  }

  // ---------------------------------------------------------------------------
  // The evaluator

  /** `Evaluator`: the workflows by name. */
  datatype Evaluator = Evaluator(workflows: map<string, Workflow>)

  /** Every comparison names one of the four attributes. */
  predicate AttrsValid(bc: seq<Bytecode>) {
    forall i :: 0 <= i < |bc| ==> bc[i].Comparison? ==> IsAttr(bc[i].attr)
  }

  predicate WellAttributed(ev: Evaluator) {
    forall name :: name in ev.workflows ==> AttrsValid(ev.workflows[name].bytecode)
  }

  /** What one instruction does with the part: take an action, pass the part over, or
      stop at a comparison of an attribute other than x, m, a and s (where `get_rating`
      panics with `unimplemented!()`). */
  datatype Effect = Takes(act: Action) | Passes | BadAttr(attr: char)

  /** The effect of one instruction: a comparison's action when its test holds, a `Do`'s
      action always. */
  function Step(b: Bytecode, p: Part): (e: Effect)
    ensures e.BadAttr? <==> b.Comparison? && !IsAttr(b.attr)
    ensures e.Passes? ==> b.Comparison?
    ensures e.Takes? ==> e.act == b.act
  {
    match b
    case Comparison(op, attr, value, act) =>
      if !IsAttr(attr) then BadAttr(attr)
      else if Holds(op, GetRating(p, attr), value) then Takes(act) else Passes
    case Do(act) => Takes(act)
  }

  /** The effect of the first instruction that does not pass the part over; `Passes` when
      every instruction does. */
  function Scan(bc: seq<Bytecode>, p: Part): Effect {
    if bc == [] then Passes
    else if !Step(bc[0], p).Passes? then Step(bc[0], p)
    else Scan(bc[1..], p)
  }

  /** With valid attributes the scan never stops at a bad one. */
  lemma {:induction false} ScanValid(bc: seq<Bytecode>, p: Part)
    requires AttrsValid(bc)
    ensures !Scan(bc, p).BadAttr?
  {
    if bc != [] {
      assert AttrsValid(bc[1..]) by {
        assert forall i :: 0 <= i < |bc| - 1 ==> bc[1..][i] == bc[i + 1];
      }
      ScanValid(bc[1..], p);
    }
  }

  /** How a run of the evaluator ends: with a verdict, at a jump to a workflow that does not
      exist (an `unwrap` panic), at a comparison of an attribute other than x, m, a and s
      (the `unimplemented!()` panic of `get_rating`), in a workflow no instruction of which
      matches (the loop repeats that workflow for ever), or with its budget of jumps used
      up. */
  datatype Outcome = Decided(accepted: bool) | Missing(name: string) | BadAttribute(attr: char)
    | FallsThrough | OutOfFuel

  /** Carrying out an action with `fuel` jumps left. */
  function Perform(ev: Evaluator, p: Part, act: Action, fuel: nat): Outcome
    decreases fuel, 0
  {
    match act
    case Accept => Decided(true)
    case Reject => Decided(false)
    case JumpTo(name) =>
      if name !in ev.workflows then Missing(name)
      else if fuel == 0 then OutOfFuel
      else RunCode(ev, p, ev.workflows[name].bytecode, fuel - 1)
  }

  /** Running one workflow's instructions. */
  function RunCode(ev: Evaluator, p: Part, bc: seq<Bytecode>, fuel: nat): Outcome
    decreases fuel, 1
  {
    match Scan(bc, p)
    case Passes => FallsThrough
    case BadAttr(c) => BadAttribute(c)
    case Takes(act) => Perform(ev, p, act, fuel)
  }

  /** Running the evaluator from workflow "in" with at most `fuel` jumps. */
  function Run(ev: Evaluator, p: Part, fuel: nat): Outcome {
    if "in" !in ev.workflows then Missing("in") else RunCode(ev, p, ev.workflows["in"].bytecode, fuel)
  }

  /** A verdict reached with some budget is reached with any larger one. */
  lemma {:induction false} PerformFuelMonotone(ev: Evaluator, p: Part, act: Action, fuel: nat, more: nat)
    requires fuel <= more
    requires Perform(ev, p, act, fuel) != OutOfFuel
    ensures Perform(ev, p, act, more) == Perform(ev, p, act, fuel)
    decreases fuel, 0
  {
    if act.JumpTo? && act.name in ev.workflows {
      RunCodeFuelMonotone(ev, p, ev.workflows[act.name].bytecode, fuel - 1, more - 1);
    }
  }

  lemma {:induction false} RunCodeFuelMonotone(ev: Evaluator, p: Part, bc: seq<Bytecode>, fuel: nat, more: nat)
    requires fuel <= more
    requires RunCode(ev, p, bc, fuel) != OutOfFuel
    ensures RunCode(ev, p, bc, more) == RunCode(ev, p, bc, fuel)
    decreases fuel, 1
  {
    if Scan(bc, p).Takes? {
      PerformFuelMonotone(ev, p, Scan(bc, p).act, fuel, more);
    }
  }

  /** Workflows whose comparisons all name x, m, a or s never reach the `get_rating` panic. */
  lemma {:induction false} PerformValid(ev: Evaluator, p: Part, act: Action, fuel: nat)
    requires WellAttributed(ev)
    ensures !Perform(ev, p, act, fuel).BadAttribute?
    decreases fuel, 0
  {
    if act.JumpTo? && act.name in ev.workflows && fuel > 0 {
      RunCodeValid(ev, p, ev.workflows[act.name].bytecode, fuel - 1);
    }
  }

  lemma {:induction false} RunCodeValid(ev: Evaluator, p: Part, bc: seq<Bytecode>, fuel: nat)
    requires WellAttributed(ev) && AttrsValid(bc)
    ensures !RunCode(ev, p, bc, fuel).BadAttribute?
    decreases fuel, 1
  {
    ScanValid(bc, p);
    if Scan(bc, p).Takes? {
      PerformValid(ev, p, Scan(bc, p).act, fuel);
    }
  }

  /** Scanning from an instruction on: it either stops at that instruction or moves on to
      the next. */
  lemma ScanStep(bc: seq<Bytecode>, i: nat, p: Part)
    requires i < |bc|
    ensures Scan(bc[i..], p) == if Step(bc[i], p).Passes? then Scan(bc[i + 1..], p) else Step(bc[i], p)
  {
    assert bc[i..][1..] == bc[i + 1..];
  }

  /** `is_accepted`, with at most `fuel` jumps: the outer loop follows jumps from workflow
      "in", the inner loop scans the current workflow's instructions in order. */
  method IsAccepted(ev: Evaluator, p: Part, fuel: nat) returns (r: Outcome)
    ensures r == Run(ev, p, fuel)
  {
    if "in" !in ev.workflows {
      return Missing("in");
    }
    var current := ev.workflows["in"].bytecode;
    var left := fuel;
    while true
      invariant Run(ev, p, fuel) == RunCode(ev, p, current, left)
      decreases left
    {
      var jump: Option<string> := None;
      var i := 0;
      while i < |current| && jump.None?
        invariant 0 <= i <= |current|
        invariant jump.None? ==> Scan(current, p) == Scan(current[i..], p)
        invariant jump.Some? ==> Scan(current, p) == Takes(JumpTo(jump.value))
      {
        ScanStep(current, i, p);
        var effect := Step(current[i], p);
        match effect {
          case BadAttr(c) => return BadAttribute(c);
          case Takes(Accept) => return Decided(true);
          case Takes(Reject) => return Decided(false);
          case Takes(JumpTo(name)) => jump := Some(name);
          case Passes =>
        }
        i := i + 1;
      }
      if jump.None? {
        return FallsThrough;
      }
      var name := jump.value;
      if name !in ev.workflows {
        return Missing(name);
      }
      if left == 0 {
        return OutOfFuel;
      }
      current := ev.workflows[name].bytecode;
      left := left - 1;
    }
  }

  // ---------------------------------------------------------------------------
  // Unfolding the workflows into a tree

  /** `build_action_node`, with at most `fuel` jumps: a leaf for Accept and Reject, the tree
      of the named workflow for a jump. None stands for a panic (a missing workflow, or a
      workflow that runs out of instructions) or for a budget used up. */
  function BuildActionNode(ev: Evaluator, act: Action, fuel: nat): Option<Node>
    decreases fuel, 0
  {
    match act
    case Accept => Some(AcceptLeaf)
    case Reject => Some(RejectLeaf)
    case JumpTo(name) =>
      if name !in ev.workflows || fuel == 0 then None
      else BuildTree(ev, ev.workflows[name].bytecode, fuel - 1)
  }

  /** `build_tree`: a comparison becomes an interior node whose yes branch is its action's
      tree and whose no branch is the tree of the remaining instructions; a `Do` becomes
      its action's tree. Running out of instructions is the `unwrap` panic. */
  function BuildTree(ev: Evaluator, bc: seq<Bytecode>, fuel: nat): Option<Node>
    decreases fuel, |bc| + 1
  {
    if bc == [] then None
    else match bc[0]
      case Comparison(op, attr, value, act) =>
        var yes := BuildActionNode(ev, act, fuel);
        var no := BuildTree(ev, bc[1..], fuel);
        if yes.Some? && no.Some? then Some(Interior((op, attr, value), yes.value, no.value)) else None
      case Do(act) => BuildActionNode(ev, act, fuel)
  }

  /** `as_tree`: the tree of workflow "in". */
  function AsTree(ev: Evaluator, fuel: nat): Option<Node> {
    if "in" !in ev.workflows then None else BuildTree(ev, ev.workflows["in"].bytecode, fuel)
  }

  /** The tree of an action decides every part as the evaluator does. */
  lemma {:induction false} ActionNodeAgrees(ev: Evaluator, act: Action, fuel: nat, p: Part)
    requires WellAttributed(ev) && BuildActionNode(ev, act, fuel).Some?
    ensures ValidTree(BuildActionNode(ev, act, fuel).value)
    ensures Perform(ev, p, act, fuel) == Decided(Decide(BuildActionNode(ev, act, fuel).value, p))
    decreases fuel, 0
  {
    if act.JumpTo? {
      TreeAgrees(ev, ev.workflows[act.name].bytecode, fuel - 1, p);
    }
  }

  /** The tree of a list of instructions decides every part as running them does. */
  lemma {:induction false} TreeAgrees(ev: Evaluator, bc: seq<Bytecode>, fuel: nat, p: Part)
    requires WellAttributed(ev) && AttrsValid(bc) && BuildTree(ev, bc, fuel).Some?
    ensures ValidTree(BuildTree(ev, bc, fuel).value)
    ensures RunCode(ev, p, bc, fuel) == Decided(Decide(BuildTree(ev, bc, fuel).value, p))
    decreases fuel, |bc| + 1
  {
    ScanStep(bc, 0, p);
    assert bc[0..] == bc;
    match bc[0]
    case Comparison(op, attr, value, act) =>
      ActionNodeAgrees(ev, act, fuel, p);
      TreeAgrees(ev, bc[1..], fuel, p);
    case Do(act) =>
      ActionNodeAgrees(ev, act, fuel, p);
  }

  /** Part two agrees with part one: when the workflows unfold into a tree, the intended
      traversal covers exactly the parts with ratings 1 to 4000 that the evaluator accepts. */
  lemma TraverseMatchesEvaluator(ev: Evaluator, fuel: nat, p: Part)
    requires WellAttributed(ev) && AsTree(ev, fuel).Some? && AsTree(ev, fuel).value.Interior?
    ensures ValidTree(AsTree(ev, fuel).value)
    ensures Covered(Boxes(AsTree(ev, fuel).value, NewBox(), true), p) <==>
      1 <= p.x <= 4000 && 1 <= p.m <= 4000 && 1 <= p.a <= 4000 && 1 <= p.s <= 4000
      && Run(ev, p, fuel) == Decided(true)
  {
    TreeAgrees(ev, ev.workflows["in"].bytecode, fuel, p);
    TraverseExact(AsTree(ev, fuel).value, p);
  }

  // ---------------------------------------------------------------------------
  // Reading workflows

  /** One comma-separated item of a workflow: `c<n:act` or `c>n:act` (attribute, operator,
      value, action) is a comparison, any item without ':' is a `Do`. None stands for the
      panics: a condition shorter than two characters or a value that is not a number. */
  function CompileItem(inst: string): Option<Bytecode> {
    match SplitOnce(inst, ":")
    case None => Some(Do(ActionFrom(inst)))
    case Some((cond, act)) =>
      if |cond| < 2 then None
      else match ParseNat(cond[2..])
        case None => None
        case Some(value) => Some(Comparison(cond[1], cond[0], value, ActionFrom(act)))
  }

  function CompileItems(items: seq<string>): (r: Option<seq<Bytecode>>)
    ensures r.Some? ==> |r.value| == |items|
  {
    if items == [] then Some([])
    else match (CompileItem(items[0]), CompileItems(items[1..]))
      case (Some(b), Some(rest)) => Some([b] + rest)
      case _ => None
  }

  /** `compile_workflow`: the name before '{', then the items between it and the last
      character (the closing '}'). */
  function CompileWorkflow(source: string): Option<(string, Workflow)> {
    match SplitOnce(source, "{")
    case None => None
    case Some((name, right)) =>
      if right == [] then None
      else match CompileItems(Split(right[..|right| - 1], ","))
        case None => None
        case Some(bc) => Some((name, Workflow(bc)))
  }

  /** An item without ':' is a `Do` of its whole text. */
  lemma CompileItemDo(inst: string)
    ensures ':' !in inst ==> CompileItem(inst) == Some(Do(ActionFrom(inst)))
    ensures ':' in inst ==> CompileItem(inst).None? || CompileItem(inst).value.Comparison?
  {
    if ':' !in inst {
      SplitOnceNoChar(inst, ':');
    } else {
      var k :| 0 <= k < |inst| && inst[k] == ':';
      assert OccursAt(inst, ":", k);
    }
  }

  /** The text of an instruction in a workflow. */
  function ItemText(b: Bytecode): string {
    match b
    case Comparison(op, attr, value, act) => [attr, op] + NatText(value) + ":" + ActionText(act)
    case Do(act) => ActionText(act)
  }

  function ItemTexts(bc: seq<Bytecode>): (r: seq<string>)
    ensures |r| == |bc|
    ensures forall i :: 0 <= i < |bc| ==> r[i] == ItemText(bc[i])
  {
    if bc == [] then [] else [ItemText(bc[0])] + ItemTexts(bc[1..])
  }

  /** The text of a workflow: its name, then its items between braces. */
  function WorkflowText(name: string, wf: Workflow): string {
    name + "{" + Join(ItemTexts(wf.bytecode), ",") + "}"
  }

  /** An action whose text reads back as itself and holds no separator. */
  predicate Writable(act: Action) {
    act.JumpTo? ==> act.name != "A" && act.name != "R" && ':' !in act.name && ',' !in act.name
  }

  predicate WritableItem(b: Bytecode) {
    && Writable(b.act)
    && (b.Comparison? ==> b.attr != ':' && b.attr != ',' && b.op != ':' && b.op != ',')
  }

  lemma DigitsHoldNoSeparator(s: string)
    requires AllDigits(s)
    ensures ':' !in s && ',' !in s
  {
  }

  /** Reading an item's text gives the item back. */
  lemma CompileItemText(b: Bytecode)
    requires WritableItem(b)
    ensures CompileItem(ItemText(b)) == Some(b)
    ensures ',' !in ItemText(b)
  {
    ActionFromText(b.act);
    match b
    case Comparison(op, attr, value, act) =>
      var cond := [attr, op] + NatText(value);
      DigitsHoldNoSeparator(NatText(value));
      assert ItemText(b) == cond + [':'] + ActionText(act);
      SplitOnceChar(cond, ':', ActionText(act));
      assert cond[2..] == NatText(value);
      ParseNatText(value);
    case Do(act) =>
      SplitOnceNoChar(ActionText(act), ':');
  }

  /** Items that each compile give the list of their instructions. */
  lemma {:induction false} CompileItemsOf(items: seq<string>, bc: seq<Bytecode>)
    requires |items| == |bc| && forall i :: 0 <= i < |bc| ==> CompileItem(items[i]) == Some(bc[i])
    ensures CompileItems(items) == Some(bc)
    decreases |bc|
  {
    if bc != [] {
      CompileItemsOf(items[1..], bc[1..]);
      SplitFirst(bc);
    }
  }

  /** Reading the texts of a list of instructions gives the list back. */
  lemma CompileItemsText(bc: seq<Bytecode>)
    requires forall i :: 0 <= i < |bc| ==> WritableItem(bc[i])
    ensures CompileItems(ItemTexts(bc)) == Some(bc)
  {
    forall i | 0 <= i < |bc|
      ensures CompileItem(ItemTexts(bc)[i]) == Some(bc[i])
    {
      CompileItemText(bc[i]);
    }
    CompileItemsOf(ItemTexts(bc), bc);
  }

  /** Reading a workflow's text gives the workflow back, when its name holds no '{', it has
      at least one item and its items hold no separators. */
  lemma CompileWorkflowText(name: string, wf: Workflow)
    requires '{' !in name && |wf.bytecode| >= 1
    requires forall i :: 0 <= i < |wf.bytecode| ==> WritableItem(wf.bytecode[i])
    ensures CompileWorkflow(WorkflowText(name, wf)) == Some((name, wf))
  {
    var items := ItemTexts(wf.bytecode);
    var body := Join(items, ",");
    assert WorkflowText(name, wf) == name + ['{'] + (body + "}");
    SplitOnceChar(name, '{', body + "}");
    assert (body + "}")[..|body + "}"| - 1] == body;
    forall i | 0 <= i < |items|
      ensures ',' !in items[i]
    {
      CompileItemText(wf.bytecode[i]);
    }
    SplitJoin(items, ',');
    CompileItemsText(wf.bytecode);
  }
}

/** Day 8 (day08/src/lib.rs): walking a network of nodes by a cyclic list of left/right
    instructions, for one walker and for several walking together. */
module Day08 {
  import opened Wrappers
  import opened Strings

  datatype Instruction = Left | Right

  /** A node names its left and its right neighbour. */
  datatype Node = Node(left: string, right: string)

  datatype Problem = Problem(instructions: seq<Instruction>, nodes: map<string, Node>)

  /** The neighbour an instruction leads to. */
  function Child(node: Node, inst: Instruction): string {
    match inst
    case Left => node.left
    case Right => node.right
  }

  /** How a walk ends: at a node accepted by the end test after `steps` steps, at the name
      of a node the map does not hold (the source panics on `unwrap`), or still walking
      when the budget of steps runs out (the source loops for ever). */
  datatype Outcome = Found(steps: nat) | Missing(name: string) | OutOfFuel

  // ---------------------------------------------------------------------------------------
  // `iterate`
  // ---------------------------------------------------------------------------------------

  /** The index of the instruction used at step `t` (counting from 0): the list is
      followed from its start and begun again after its end. */
  function Cycle(n: nat, t: nat): (i: nat)
    requires n > 0
    ensures i < n
  {
    if t == 0 then 0
    else if Cycle(n, t - 1) + 1 == n then 0
    else Cycle(n, t - 1) + 1
  }

  /** The walk from `current`, which was reached after `steps` steps, up to step `limit`. */
  function Walk(p: Problem, current: Node, steps: nat, endP: string -> bool, limit: nat): Outcome
    decreases limit - steps
  {
    if steps >= limit || |p.instructions| == 0 then OutOfFuel
    else
      var next := Child(current, p.instructions[Cycle(|p.instructions|, steps)]);
      if endP(next) then Found(steps + 1)
      else if next !in p.nodes then Missing(next)
      else Walk(p, p.nodes[next], steps + 1, endP, limit)
  }

  /** What `iterate` returns when it may make `fuel` passes over the instructions. */
  function Steps(p: Problem, start: string, endP: string -> bool, fuel: nat): Outcome {
    if start !in p.nodes then Missing(start)
    else Walk(p, p.nodes[start], 0, endP, fuel * |p.instructions|)
  }

  lemma MulMonotone(a: nat, b: nat, n: nat)
    requires a <= b
    ensures a * n <= b * n
  {
  }

  /** `iterate`: from `start`, follow the instructions over and over, counting steps, and
      stop at the first node accepted by `endP`; the start node itself is never checked. */
  method Iterate(p: Problem, start: string, endP: string -> bool, fuel: nat) returns (r: Outcome)
    ensures r == Steps(p, start, endP, fuel)
  {
    if start !in p.nodes {
      return Missing(start);
    }
    var n := |p.instructions|;
    var limit := fuel * n;
    var steps: nat := 0;
    var current := p.nodes[start];
    var round: nat := 0;
    while round < fuel
      invariant round <= fuel && steps == round * n
      invariant n > 0 ==> Cycle(n, steps) == 0
      invariant Walk(p, current, steps, endP, limit) == Steps(p, start, endP, fuel)
    {
      MulMonotone(round + 1, fuel, n);
      for i := 0 to n
        invariant steps == round * n + i
        invariant i < n ==> Cycle(n, steps) == i
        invariant i == n && n > 0 ==> Cycle(n, steps) == 0
        invariant Walk(p, current, steps, endP, limit) == Steps(p, start, endP, fuel)
      {
        steps := steps + 1;
        var next := Child(current, p.instructions[i]);
        if endP(next) {
          return Found(steps);
        }
        if next !in p.nodes {
          return Missing(next);
        }
        current := p.nodes[next];
      }
      round := round + 1;
    }
    return OutOfFuel;
  }

  /** The name reached after `t` steps from `start`, or nothing once the walk has passed a
      name the map does not hold. */
  function Visit(p: Problem, start: string, t: nat): Option<string>
    requires |p.instructions| > 0
  {
    if t == 0 then Some(start)
    else
      match Visit(p, start, t - 1)
      case Some(name) =>
        if name in p.nodes then Some(Child(p.nodes[name], p.instructions[Cycle(|p.instructions|, t - 1)]))
        else None
      case None => None
  }

  /** The walk from step `steps` finds the first later step whose name is accepted. */
  lemma {:induction false} WalkFirst(p: Problem, start: string, endP: string -> bool, limit: nat, steps: nat, s: nat)
    requires |p.instructions| > 0
    requires Visit(p, start, steps).Some? && Visit(p, start, steps).value in p.nodes
    ensures Walk(p, p.nodes[Visit(p, start, steps).value], steps, endP, limit) == Found(s) ==>
      (steps < s <= limit && Visit(p, start, s).Some? && endP(Visit(p, start, s).value) &&
       forall t :: steps < t < s ==> Visit(p, start, t).Some? && !endP(Visit(p, start, t).value))
    ensures (steps < s <= limit && Visit(p, start, s).Some? && endP(Visit(p, start, s).value) &&
       forall t :: steps < t < s ==> Visit(p, start, t).Some? && !endP(Visit(p, start, t).value)) ==>
      Walk(p, p.nodes[Visit(p, start, steps).value], steps, endP, limit) == Found(s)
    decreases limit - steps
  {
    var n := |p.instructions|;
    var cur := p.nodes[Visit(p, start, steps).value];
    var next := Child(cur, p.instructions[Cycle(n, steps)]);
    assert Visit(p, start, steps + 1) == Some(next);
    if steps >= limit {
    } else if endP(next) {
      assert Walk(p, cur, steps, endP, limit) == Found(steps + 1);
      if s > steps + 1 {
        assert steps < steps + 1 < s && endP(Visit(p, start, steps + 1).value);
        assert !(forall t :: steps < t < s ==> Visit(p, start, t).Some? && !endP(Visit(p, start, t).value));
      }
    } else if next !in p.nodes {
      assert Walk(p, cur, steps, endP, limit) == Missing(next);
      VisitStops(p, start, steps + 1, s);
    } else {
      assert Walk(p, cur, steps, endP, limit) == Walk(p, p.nodes[next], steps + 1, endP, limit);
      WalkFirst(p, start, endP, limit, steps + 1, s);
    }
  }

  /** `iterate` returns `s` exactly when the name reached after `s` steps is the first one
      accepted by `endP`, at step 1 or later, within the budget. */
  lemma IterateFirst(p: Problem, start: string, endP: string -> bool, fuel: nat, s: nat)
    requires |p.instructions| > 0
    ensures Steps(p, start, endP, fuel) == Found(s) ==>
      (1 <= s <= fuel * |p.instructions| && Visit(p, start, s).Some? && endP(Visit(p, start, s).value) &&
       forall t :: 1 <= t < s ==> Visit(p, start, t).Some? && !endP(Visit(p, start, t).value))
    ensures (1 <= s <= fuel * |p.instructions| && Visit(p, start, s).Some? && endP(Visit(p, start, s).value) &&
       forall t :: 1 <= t < s ==> Visit(p, start, t).Some? && !endP(Visit(p, start, t).value)) ==>
      Steps(p, start, endP, fuel) == Found(s)
  {
    if start in p.nodes {
      WalkFirst(p, start, endP, fuel * |p.instructions|, 0, s);
    } else {
      VisitStops(p, start, 0, s);
    }
  }

  /** Once the walk reaches a name the map does not hold, it goes no further. */
  lemma {:induction false} VisitStops(p: Problem, start: string, t: nat, u: nat)
    requires |p.instructions| > 0
    requires Visit(p, start, t).None? || Visit(p, start, t).value !in p.nodes
    ensures t < u ==> Visit(p, start, u).None?
    decreases u - t
  {
    if t < u {
      VisitStops(p, start, t + 1, u);
    }
  }

  // ---------------------------------------------------------------------------------------
  // Least common multiples
  // ---------------------------------------------------------------------------------------

  predicate Divides(d: nat, m: nat) {
    d > 0 && m % d == 0
  }

  function Gcd(a: nat, b: nat): (g: nat)
    ensures a > 0 || b > 0 ==> g > 0
    decreases b
  {
    if b == 0 then a else Gcd(b, a % b)
  }

  /** `num::integer::lcm` on unsigned integers: zero when both are zero, else
      `a * (b / gcd(a, b))`. */
  function Lcm(a: nat, b: nat): nat {
    if a == 0 && b == 0 then 0 else Product(a, Quotient(b, Gcd(a, b)))
  }

  function Quotient(b: nat, g: nat): nat
    requires g > 0
  {
    b / g
  }

  function Product(x: nat, y: nat): nat {
    x * y
  }

  lemma MulBounds(d: int, k: int)
    requires d > 0
    ensures k >= 1 ==> d * k >= d
    ensures k <= -1 ==> d * k <= -d
  {
  }

  /** Quotient and remainder are unique. */
  lemma DivModUnique(m: int, d: int, q: int, r: int)
    requires d > 0 && 0 <= r < d && m == d * q + r
    ensures m / d == q && m % d == r
  {
    var k := q - m / d;
    assert d * k == m % d - r by {
      assert d * k == d * q - d * (m / d);
    }
    MulBounds(d, k);
  }

  /** A multiple of `d` is `d` times its quotient. */
  lemma QuotientOfMultiple(d: nat, m: nat)
    requires d > 0 && m % d == 0
    ensures m == d * (m / d)
  {
  }

  lemma DividesMultiple(d: nat, q: int, m: nat)
    requires d > 0 && m == d * q
    ensures m % d == 0 && m / d == q
  {
    DivModUnique(m, d, q, 0);
  }

  /** The gcd divides both numbers. */
  lemma {:induction false} GcdDivides(a: nat, b: nat)
    requires a > 0 || b > 0
    ensures Gcd(a, b) > 0 && a % Gcd(a, b) == 0 && b % Gcd(a, b) == 0
    decreases b
  {
    if b > 0 {
      var r := a % b;
      GcdDivides(b, r);
      var g := Gcd(b, r);
      var x, y := b / g, r / g;
      QuotientOfMultiple(g, b);
      QuotientOfMultiple(g, r);
      var q := a / b;
      DivRem(a, b);
      CommonFactor(a, b, r, q, g, x, y);
      DividesMultiple(g, q * x + y, a);
    }
  }

  lemma DivRem(a: nat, b: nat)
    requires b > 0
    ensures a == (a / b) * b + a % b
  {
  }

  /** A factor of `b` and of `r` is a factor of `q b + r`. */
  lemma CommonFactor(a: int, b: int, r: int, q: int, g: int, x: int, y: int)
    requires b == g * x && r == g * y && a == q * b + r
    ensures a == g * (q * x + y)
  {
    assert q * b == q * (g * x) == g * (q * x);
  }

  /** Bezout's identity: the gcd is an integer combination of the two numbers. */
  lemma {:induction false} Bezout(a: nat, b: nat) returns (x: int, y: int)
    ensures Gcd(a, b) == a * x + b * y
    decreases b
  {
    if b == 0 {
      x, y := 1, 0;
    } else {
      var x', y' := Bezout(b, a % b);
      var q := a / b;
      DivRem(a, b);
      x, y := y', x' - q * y';
      BezoutStep(a, b, a % b, q, x', y');
    }
  }

  /** One step of Euclid's algorithm keeps an integer combination. */
  lemma BezoutStep(a: int, b: int, r: int, q: int, x': int, y': int)
    requires a == q * b + r
    ensures b * x' + r * y' == a * y' + b * (x' - q * y')
  {
    calc {
      b * x' + r * y';
      b * x' + (a - q * b) * y';
      { assert (a - q * b) * y' == a * y' - q * b * y'; }
      b * x' + a * y' - q * b * y';
      { assert q * b * y' == b * (q * y'); }
      a * y' + b * (x' - q * y');
    }
  }

  /** The lcm of two positive numbers is a common multiple of both. */
  lemma LcmCommon(a: nat, b: nat)
    requires a > 0 && b > 0
    ensures Lcm(a, b) > 0 && Divides(a, Lcm(a, b)) && Divides(b, Lcm(a, b))
  {
    GcdDivides(a, b);
    var g := Gcd(a, b);
    var a', b' := a / g, b / g;
    assert b == g * b' && a == g * a' by {
      QuotientOfMultiple(g, a);
      QuotientOfMultiple(g, b);
    }
    assert b' > 0 by {
      MulBounds(g, b');
    }
    var l := Lcm(a, b);
    assert l == a * b';
    assert l > 0 && Divides(a, l) by {
      MulBounds(a, b');
      DividesMultiple(a, b', l);
    }
    assert l == b * a' by {
      SwapFactors(g, a', b');
    }
    DividesMultiple(b, a', l);
  }

  lemma SwapFactors(g: int, x: int, y: int)
    ensures (g * x) * y == (g * y) * x
  {
  }

  /** The lcm of two positive numbers divides each of their common multiples. */
  lemma LcmDivides(a: nat, b: nat, m: nat)
    requires a > 0 && b > 0 && Divides(a, m) && Divides(b, m)
    ensures Divides(Lcm(a, b), m)
  {
    LcmCommon(a, b);
    GcdDivides(a, b);
    var g := Gcd(a, b);
    var l := Lcm(a, b);
    var b' := b / g;
    QuotientOfMultiple(g, b);
    var x, y := Bezout(a, b);
    var r, s := m / a, m / b;
    QuotientOfMultiple(a, m);
    QuotientOfMultiple(b, m);
    LcmTimesGcd(a, b', g, l);
    var q := CombineMultiples(a, b, l, g, m, x, y, r, s);
    CancelFactor(m, l * q, g);
    DividesMultiple(l, q, m);
  }

  lemma LcmTimesGcd(a: int, b': int, g: int, l: int)
    requires l == a * b'
    ensures a * (g * b') == l * g
  {
  }

  /** With `g = a x + b y`, a common multiple `m = a r = b s` times `g` is a multiple of
      `a b = l g`. */
  lemma CombineMultiples(a: int, b: int, l: int, g: int, m: int, x: int, y: int, r: int, s: int)
    returns (q: int)
    requires g == a * x + b * y && m == a * r && m == b * s && a * b == l * g
    ensures m * g == (l * q) * g
  {
    q := s * x + r * y;
    calc {
      m * g;
      m * (a * x) + m * (b * y);
      (b * s) * (a * x) + (a * r) * (b * y);
      (a * b) * (s * x) + (a * b) * (r * y);
      (a * b) * q;
      (l * g) * q;
      (l * q) * g;
    }
  }

  /** The lcm is a common multiple of two positive numbers and divides each of their
      common multiples. */
  lemma LcmLeast(a: nat, b: nat)
    requires a > 0 && b > 0
    ensures Lcm(a, b) > 0 && Divides(a, Lcm(a, b)) && Divides(b, Lcm(a, b))
    ensures forall m: nat :: Divides(a, m) && Divides(b, m) ==> Divides(Lcm(a, b), m)
  {
    LcmCommon(a, b);
    forall m: nat | Divides(a, m) && Divides(b, m)
      ensures Divides(Lcm(a, b), m)
    {
      LcmDivides(a, b, m);
    }
  }

  lemma CancelFactor(m: int, k: int, g: nat)
    requires g > 0 && m * g == k * g
    ensures m == k
  {
    assert g * (m - k) == 0 by {
      assert g * (m - k) == m * g - k * g;
    }
    MulBounds(g, m - k);
  }

  // ---------------------------------------------------------------------------------------
  // `parallel_iterate`
  // ---------------------------------------------------------------------------------------

  predicate EndsWithChar(s: string, c: char) {
    |s| > 0 && s[|s| - 1] == c
  }

  /** The end test of a walker: the name ends with `c`. */
  function EndsIn(c: char): string -> bool {
    s => EndsWithChar(s, c)
  }

  /** The names the walkers start from. */
  function StartKeys(p: Problem, start: char): set<string> {
    set k | k in p.nodes && EndsWithChar(k, start)
  }

  /** A walker's path length, when it reaches a name ending in `end`. */
  function Length(p: Problem, key: string, end: char, fuel: nat): Outcome {
    Steps(p, key, EndsIn(end), fuel)
  }

  /** `v` is a least common multiple of the path lengths of the walkers from `keys`. */
  ghost predicate LeastCommon(p: Problem, keys: set<string>, end: char, fuel: nat, v: nat) {
    (forall k :: k in keys ==> Length(p, k, end, fuel).Found? && Divides(Length(p, k, end, fuel).steps, v)) &&
    (forall m: nat :: (forall k :: k in keys ==> Divides(Length(p, k, end, fuel).steps, m)) ==> Divides(v, m))
  }

  /** `parallel_iterate`: the path length of every walker starting at a name that ends in
      `start`, to a name that ends in `end`, reduced with `lcm`. Nothing comes back when
      there is no walker (the source panics on `unwrap`) or when a walker does not arrive
      (the source panics or loops). Names are taken in any order, as a hash map yields
      them. */
  method ParallelIterate(p: Problem, start: char, end: char, fuel: nat) returns (r: Option<nat>)
    ensures r.Some? <==> (StartKeys(p, start) != {} &&
      forall k :: k in StartKeys(p, start) ==> Length(p, k, end, fuel).Found?)
    ensures r.Some? ==> r.value > 0 && LeastCommon(p, StartKeys(p, start), end, fuel, r.value)
  {
    var keys := StartKeys(p, start);
    ghost var all := keys;
    ghost var seen: set<string> := {};
    var acc: Option<nat> := None;
    while keys != {}
      invariant keys + seen == all
      invariant keys !! seen
      invariant acc.None? <==> seen == {}
      invariant acc.Some? ==> acc.value > 0 && LeastCommon(p, seen, end, fuel, acc.value)
      decreases |keys|
    {
      var key :| key in keys;
      var length := Iterate(p, key, EndsIn(end), fuel);
      if !length.Found? {
        return None;
      }
      assert length.steps > 0 by {
        FoundPositive(p, key, EndsIn(end), fuel);
      }
      if acc.None? {
        LeastCommonSingle(p, key, end, fuel, length.steps);
        acc := Some(length.steps);
      } else {
        LcmStep(p, seen, key, end, fuel, acc.value, length.steps);
        acc := Some(Lcm(acc.value, length.steps));
      }
      MoveKey(keys, seen, key);
      keys := keys - {key};
      seen := seen + {key};
    }
    return acc;
  }

  lemma MoveKey(keys: set<string>, seen: set<string>, key: string)
    requires key in keys && keys !! seen
    ensures (keys - {key}) + (seen + {key}) == keys + seen
    ensures (keys - {key}) !! (seen + {key})
    ensures |keys - {key}| < |keys|
  {
  }

  /** A single walker's length is the least common multiple of itself. */
  lemma LeastCommonSingle(p: Problem, key: string, end: char, fuel: nat, length: nat)
    requires length > 0 && Length(p, key, end, fuel) == Found(length)
    ensures LeastCommon(p, {key}, end, fuel, length)
  {
    DividesMultiple(length, 1, length);
    forall m: nat | forall k :: k in {key} ==> Divides(Length(p, k, end, fuel).steps, m)
      ensures Divides(length, m)
    {
      assert key in {key};
    }
  }

  /** A walk that is found has taken at least one step. */
  lemma FoundPositive(p: Problem, start: string, endP: string -> bool, fuel: nat)
    ensures Steps(p, start, endP, fuel).Found? ==> Steps(p, start, endP, fuel).steps > 0
  {
    if start in p.nodes && |p.instructions| > 0 {
      WalkPositive(p, p.nodes[start], 0, endP, fuel * |p.instructions|);
    }
  }

  lemma {:induction false} WalkPositive(p: Problem, current: Node, steps: nat, endP: string -> bool, limit: nat)
    ensures Walk(p, current, steps, endP, limit).Found? ==> Walk(p, current, steps, endP, limit).steps > steps
    decreases limit - steps
  {
    if steps < limit && |p.instructions| > 0 {
      var next := Child(current, p.instructions[Cycle(|p.instructions|, steps)]);
      if !endP(next) && next in p.nodes {
        WalkPositive(p, p.nodes[next], steps + 1, endP, limit);
      }
    }
  }

  /** Folding one more length into the lcm keeps it the least common multiple. */
  lemma LcmStep(p: Problem, seen: set<string>, key: string, end: char, fuel: nat, v: nat, length: nat)
    requires v > 0 && length > 0 && LeastCommon(p, seen, end, fuel, v)
    requires Length(p, key, end, fuel) == Found(length)
    ensures Lcm(v, length) > 0 && LeastCommon(p, seen + {key}, end, fuel, Lcm(v, length))
  {
    LcmLeast(v, length);
    var l := Lcm(v, length);
    forall k | k in seen + {key}
      ensures Length(p, k, end, fuel).Found? && Divides(Length(p, k, end, fuel).steps, l)
    {
      if k in seen {
        DividesTransitive(Length(p, k, end, fuel).steps, v, l);
      }
    }
    forall m: nat | forall k :: k in seen + {key} ==> Divides(Length(p, k, end, fuel).steps, m)
      ensures Divides(l, m)
    {
      assert Divides(v, m);
      assert Divides(length, m);
    }
  }

  lemma DividesTransitive(a: nat, b: nat, c: nat)
    requires Divides(a, b) && Divides(b, c)
    ensures Divides(a, c)
  {
    var x, y := b / a, c / b;
    assert b == a * x && c == b * y;
    assert c == a * (x * y);
    DividesMultiple(a, x * y, c);
  }

  // ---------------------------------------------------------------------------------------
  // `parse_instructions`
  // ---------------------------------------------------------------------------------------

  /** 'L' is a left turn and every other character a right turn. */
  function InstructionOf(c: char): Instruction {
    if c == 'L' then Left else Right
  }

  function InstructionsOf(line: string): (r: seq<Instruction>)
    ensures |r| == |line|
    ensures forall i :: 0 <= i < |line| ==> (r[i] == Left <==> line[i] == 'L')
  {
    seq(|line|, i requires 0 <= i < |line| => InstructionOf(line[i]))
  }

  /** A line `NAME = (LEFT, RIGHT)`; nothing when it lacks " = ", when the text after it
      is shorter than the two brackets, or when there is no ", " between them. */
  function ParseNode(line: string): Option<(string, Node)> {
    match SplitOnce(line, " = ")
    case None => None
    case Some((name, edges)) =>
      if |edges| < 2 then None
      else
        match SplitOnce(edges[1..|edges| - 1], ", ")
        case None => None
        case Some((left, right)) => Some((name, Node(left, right)))
  }

  /** The text of a node line, and its parse. */
  function NodeLine(name: string, node: Node): string {
    name + " = (" + node.left + ", " + node.right + ")"
  }

  lemma ParseNodeLine(name: string, node: Node)
    requires ' ' !in name && ',' !in node.left
    ensures ParseNode(NodeLine(name, node)) == Some((name, node))
  {
    var edges := "(" + node.left + ", " + node.right + ")";
    assert NodeLine(name, node) == name + " = " + edges;
    SplitOncePattern(name, " = ", edges);
    assert edges[1..|edges| - 1] == node.left + ", " + node.right;
    SplitOncePattern(node.left, ", ", node.right);
  }

  /** Every node line parsed, in order. */
  function ParseNodes(lines: seq<string>): Option<seq<(string, Node)>> {
    if lines == [] then Some([])
    else
      match (ParseNodes(lines[..|lines| - 1]), ParseNode(lines[|lines| - 1]))
      case (Some(entries), Some(entry)) => Some(entries + [entry])
      case _ => None
  }

  /** `HashMap::from_iter`: entries inserted in order, a later one replacing an earlier one
      with the same name. */
  function FromIter(entries: seq<(string, Node)>): map<string, Node> {
    if entries == [] then map[]
    else
      var last := entries[|entries| - 1];
      FromIter(entries[..|entries| - 1])[last.0 := last.1]
  }

  /** The map holds exactly the names of the entries, each with its last entry's node. */
  lemma FromIterLastWins(entries: seq<(string, Node)>)
    ensures forall k :: k in FromIter(entries) <==> exists i :: 0 <= i < |entries| && entries[i].0 == k
    ensures forall i :: 0 <= i < |entries| && (forall j :: i < j < |entries| ==> entries[j].0 != entries[i].0) ==>
      FromIter(entries)[entries[i].0] == entries[i].1
  {
    FromIterKeys(entries);
    FromIterLast(entries);
  }

  /** The map's keys are the entries' names. */
  lemma {:induction false} FromIterKeys(entries: seq<(string, Node)>)
    ensures forall k :: k in FromIter(entries) <==> exists i :: 0 <= i < |entries| && entries[i].0 == k
  {
    if entries != [] {
      var init := entries[..|entries| - 1];
      var last := entries[|entries| - 1];
      FromIterKeys(init);
      forall k
        ensures k in FromIter(entries) <==> exists i :: 0 <= i < |entries| && entries[i].0 == k
      {
        if k == last.0 {
          assert entries[|entries| - 1].0 == k;
        } else {
          if k in FromIter(init) {
            var i :| 0 <= i < |init| && init[i].0 == k;
            assert entries[i] == init[i];
          }
          if exists i :: 0 <= i < |entries| && entries[i].0 == k {
            var i :| 0 <= i < |entries| && entries[i].0 == k;
            assert init[i] == entries[i];
          }
        }
      }
    }
  }

  /** A name's value is the node of its last entry. */
  lemma {:induction false} FromIterLast(entries: seq<(string, Node)>)
    ensures forall i :: 0 <= i < |entries| && (forall j :: i < j < |entries| ==> entries[j].0 != entries[i].0) ==>
      entries[i].0 in FromIter(entries) && FromIter(entries)[entries[i].0] == entries[i].1
  {
    if entries != [] {
      var init := entries[..|entries| - 1];
      FromIterLast(init);
      forall i | 0 <= i < |entries| && (forall j :: i < j < |entries| ==> entries[j].0 != entries[i].0)
        ensures entries[i].0 in FromIter(entries) && FromIter(entries)[entries[i].0] == entries[i].1
      {
        if i < |init| {
          assert init[i] == entries[i];
          forall j | i < j < |init| ensures init[j].0 != init[i].0 {
            assert init[j] == entries[j];
          }
        }
      }
    }
  }

  /** `parse_instructions`: the first line gives the instructions, the second is skipped,
      every later line is a node; nothing when there is no first line or a node line is
      malformed (the source panics). */
  function ParseInstructions(lines: seq<string>): (r: Option<Problem>)
    ensures r.Some? ==> lines != [] && r.value.instructions == InstructionsOf(lines[0])
  {
    if lines == [] then None
    else
      var nodeLines := if |lines| < 2 then [] else lines[2..];
      match ParseNodes(nodeLines)
      case None => None
      case Some(entries) => Some(Problem(InstructionsOf(lines[0]), FromIter(entries)))
  }

  /** The node lines written out from a list of entries. */
  function NodeLines(entries: seq<(string, Node)>): (r: seq<string>)
    ensures |r| == |entries|
  {
    if entries == [] then []
    else
      var last := entries[|entries| - 1];
      NodeLines(entries[..|entries| - 1]) + [NodeLine(last.0, last.1)]
  }

  /** Node lines written out from well-formed entries parse back to those entries. */
  lemma {:induction false} ParseNodesLines(entries: seq<(string, Node)>)
    requires forall i :: 0 <= i < |entries| ==> ' ' !in entries[i].0 && ',' !in entries[i].1.left
    ensures ParseNodes(NodeLines(entries)) == Some(entries)
  {
    if entries != [] {
      var n := |entries| - 1;
      var init := entries[..n];
      assert forall i :: 0 <= i < n ==> init[i] == entries[i];
      ParseNodesLines(init);
      ParseNodeLine(entries[n].0, entries[n].1);
      AppendLast(NodeLines(init), NodeLine(entries[n].0, entries[n].1));
      SplitLast(entries);
    }
  }

  /** A text with an instruction line, a blank line and well-formed node lines gives a
      problem with those instructions, holding each name with its last node. */
  lemma ParseInstructionsLines(line: string, blank: string, entries: seq<(string, Node)>)
    requires forall i :: 0 <= i < |entries| ==> ' ' !in entries[i].0 && ',' !in entries[i].1.left
    ensures ParseInstructions([line, blank] + NodeLines(entries)) ==
      Some(Problem(InstructionsOf(line), FromIter(entries)))
  {
    ParseNodesLines(entries);
    assert ([line, blank] + NodeLines(entries))[2..] == NodeLines(entries);
  }
}

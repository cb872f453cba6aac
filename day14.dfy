/** Day 14 (day14/src/lib.rs): a platform of rounded rocks 'O', cube rocks '#' and empty
    ground '.'. Tilting the platform rolls every rounded rock as far as it goes, stopping at
    a cube rock or the edge; a spin cycle tilts it north, west, south and east. The map is a
    sequence of rows (strings); tilting is done on rows, with transposes and flips in
    between. */
module Day14 {
  import opened Wrappers
  import Strings

  // ---------------------------------------------------------------------------------------
  // Counting and packing inside one row
  // ---------------------------------------------------------------------------------------

  /** The number of rounded rocks in a row. */
  function CountO(s: string): (n: nat)
    ensures n <= |s|
    decreases |s|
  {
    if s == [] then 0 else CountO(s[..|s| - 1]) + (if s[|s| - 1] == 'O' then 1 else 0)
  }

  /** No occurrence of `c` in `s`. */
  predicate Free(s: string, c: char) {
    forall j :: 0 <= j < |s| ==> s[j] != c
  }

  lemma {:induction false} CountOConcat(a: string, b: string)
    ensures CountO(a + b) == CountO(a) + CountO(b)
    decreases |b|
  {
    if b == [] {
      assert a + b == a;
    } else {
      assert (a + b)[..|a + b| - 1] == a + b[..|b| - 1];
      assert (a + b)[|a + b| - 1] == b[|b| - 1];
      CountOConcat(a, b[..|b| - 1]);
    }
  }

  lemma {:induction false} CountONone(s: string)
    requires Free(s, 'O')
    ensures CountO(s) == 0
    decreases |s|
  {
    if s != [] {
      var init := s[..|s| - 1];
      assert Free(init, 'O') by {
        forall j | 0 <= j < |init| ensures init[j] != 'O' { assert init[j] == s[j]; }
      }
      CountONone(init);
    }
  }

  function Repeat(c: char, n: nat): (r: string)
    ensures |r| == n && forall j :: 0 <= j < n ==> r[j] == c
  {
    seq(n, _ => c)
  }

  /** One stretch of a row between cube rocks, tilted towards its start: when it holds
      rounded rocks, everything up to the last of them becomes the rounded rocks followed by
      empty ground; what lies after the last rounded rock stays as it was. */
  function Pack(s: string): (r: string)
    ensures |r| == |s|
    decreases |s|
  {
    if s == [] then []
    else if s[|s| - 1] == 'O' then Repeat('O', CountO(s)) + Repeat('.', |s| - CountO(s))
    else Pack(s[..|s| - 1]) + [s[|s| - 1]]
  }

  /** Packing a stretch without cube rocks puts all its rounded rocks first, keeps their
      number and brings in no cube rock. */
  lemma {:induction false} PackPacks(s: string)
    requires Free(s, '#')
    ensures CountO(Pack(s)) == CountO(s)
    ensures forall j :: 0 <= j < |s| ==> (Pack(s)[j] == 'O' <==> j < CountO(s))
    ensures Free(Pack(s), '#')
    decreases |s|
  {
    if s == [] {
    } else if s[|s| - 1] == 'O' {
      PackWhole(s);
    } else {
      var init := s[..|s| - 1];
      assert Free(init, '#') by {
        forall j | 0 <= j < |init| ensures init[j] != '#' { assert init[j] == s[j]; }
      }
      PackPacks(init);
      PackStep(s);
    }
  }

  /** A stretch ending in a rounded rock is packed whole. */
  lemma PackWhole(s: string)
    requires s != [] && s[|s| - 1] == 'O'
    ensures CountO(Pack(s)) == CountO(s)
    ensures forall j :: 0 <= j < |s| ==> (Pack(s)[j] == 'O' <==> j < CountO(s))
    ensures Free(Pack(s), '#')
  {
    PackedShape(CountO(s), |s| - CountO(s));
  }

  /** Rounded rocks followed by empty ground. */
  lemma PackedShape(n: nat, m: nat)
    ensures CountO(Repeat('O', n) + Repeat('.', m)) == n
    ensures forall j :: 0 <= j < n + m ==> ((Repeat('O', n) + Repeat('.', m))[j] == 'O' <==> j < n)
    ensures Free(Repeat('O', n) + Repeat('.', m), '#')
  {
    var ohs, dots := Repeat('O', n), Repeat('.', m);
    CountOConcat(ohs, dots);
    RepeatCount(n);
    CountONone(dots);
  }

  /** A stretch ending in anything else is packed up to its last character. */
  lemma PackStep(s: string)
    requires s != [] && s[|s| - 1] != 'O' && s[|s| - 1] != '#'
    requires var init := s[..|s| - 1];
      CountO(Pack(init)) == CountO(init) &&
      (forall j :: 0 <= j < |init| ==> (Pack(init)[j] == 'O' <==> j < CountO(init))) &&
      Free(Pack(init), '#')
    ensures CountO(Pack(s)) == CountO(s)
    ensures forall j :: 0 <= j < |s| ==> (Pack(s)[j] == 'O' <==> j < CountO(s))
    ensures Free(Pack(s), '#')
  {
    var init, last := s[..|s| - 1], s[|s| - 1];
    assert Pack(s) == Pack(init) + [last];
    assert CountO(s) == CountO(init);
    CountOConcat(Pack(init), [last]);
    assert CountO([last]) == 0 by { assert [last][..0] == []; }
  }

  lemma {:induction false} RepeatCount(n: nat)
    ensures CountO(Repeat('O', n)) == n
  {
    if n > 0 {
      assert Repeat('O', n)[..n - 1] == Repeat('O', n - 1);
      RepeatCount(n - 1);
    }
  }

  lemma {:induction false} PackAppend(x: string, y: string)
    requires Free(y, 'O')
    ensures Pack(x + y) == Pack(x) + y
    decreases |y|
  {
    if y == [] {
      assert x + y == x;
    } else {
      var init := y[..|y| - 1];
      assert Free(init, 'O') by {
        forall j | 0 <= j < |init| ensures init[j] != 'O' { assert init[j] == y[j]; }
      }
      assert (x + y)[..|x + y| - 1] == x + init;
      assert (x + y)[|x + y| - 1] == y[|y| - 1];
      PackAppend(x, init);
      assert y == init + [y[|y| - 1]];
    }
  }

  lemma PackNoRound(s: string)
    requires Free(s, 'O')
    ensures Pack(s) == s
  {
    PackAppend([], s);
    assert [] + s == s;
  }

  // ---------------------------------------------------------------------------------------
  // A whole row: `roll_left`
  // ---------------------------------------------------------------------------------------

  /** The position of the last cube rock of a row that has one. */
  function LastCube(s: string): (i: nat)
    requires !Free(s, '#')
    ensures i < |s| && s[i] == '#' && Free(s[i + 1..], '#')
    decreases |s|
  {
    if s[|s| - 1] == '#' then |s| - 1
    else
      var init := s[..|s| - 1];
      assert !Free(init, '#');
      var i := LastCube(init);
      assert s[i + 1..] == init[i + 1..] + [s[|s| - 1]];
      i
  }

  /** A row tilted towards its start: every stretch between two cube rocks (or a cube rock
      and an edge) is packed. The recursion splits off the stretch after the last cube. */
  function Roll(s: string): (r: string)
    ensures |r| == |s|
    decreases |s|
  {
    if Free(s, '#') then Pack(s)
    else
      var i := LastCube(s);
      Roll(s[..i]) + "#" + Pack(s[i + 1..])
  }

  /** The stretch after the last cube rock is packed on its own. */
  lemma RollLastCube(x: string, y: string)
    requires Free(y, '#')
    ensures Roll(x + "#" + y) == Roll(x) + "#" + Pack(y)
  {
    var s := x + "#" + y;
    assert s[|x|] == '#';
    var i := LastCube(s);
    assert s[..i] == x && s[i + 1..] == y;
  }

  /** Appending ground without rounded rocks does not change how the row before it rolls. */
  lemma {:induction false} RollAppend(x: string, y: string)
    requires Free(y, 'O')
    ensures Roll(x + y) == Roll(x) + y
    decreases |y|
  {
    if !Free(y, '#') {
      var j := LastCube(y);
      var a, b := y[..j], y[j + 1..];
      assert y == a + "#" + b;
      assert Free(a, 'O') by {
        forall k | 0 <= k < |a| ensures a[k] != 'O' { assert a[k] == y[k]; }
      }
      RollAppend(x, a);
      RollAppendCube(x, a, b);
    } else if Free(x, '#') {
      RollAppendFree(x, y);
    } else {
      var i := LastCube(x);
      assert x == x[..i] + "#" + x[i + 1..];
      RollAppendAfterCube(x[..i], x[i + 1..], y);
    }
  }

  lemma RollAppendCube(x: string, a: string, b: string)
    requires Free(b, 'O') && Free(b, '#') && Roll(x + a) == Roll(x) + a
    ensures Roll(x + (a + "#" + b)) == Roll(x) + (a + "#" + b)
  {
    Associative(x, a, "#");
    Associative(x, a + "#", b);
    RollLastCube(x + a, b);
    PackNoRound(b);
    Associative(Roll(x), a, "#");
    Associative(Roll(x), a + "#", b);
  }

  lemma Associative(u: string, v: string, w: string)
    ensures u + v + w == u + (v + w)
  {
  }

  lemma FreeConcat(u: string, v: string, c: char)
    requires Free(u, c) && Free(v, c)
    ensures Free(u + v, c)
  {
    forall k | 0 <= k < |u + v| ensures (u + v)[k] != c {
      if k < |u| { assert (u + v)[k] == u[k]; } else { assert (u + v)[k] == v[k - |u|]; }
    }
  }

  lemma RollAppendFree(x: string, y: string)
    requires Free(y, 'O') && Free(y, '#') && Free(x, '#')
    ensures Roll(x + y) == Roll(x) + y
  {
    FreeConcat(x, y, '#');
    PackAppend(x, y);
  }

  lemma RollAppendAfterCube(a: string, b: string, y: string)
    requires Free(y, 'O') && Free(y, '#') && Free(b, '#')
    ensures Roll(a + "#" + b + y) == Roll(a + "#" + b) + y
  {
    FreeConcat(b, y, '#');
    Associative(a + "#", b, y);
    RollLastCube(a, b + y);
    RollLastCube(a, b);
    PackAppend(b, y);
    Associative(Roll(a) + "#", Pack(b), y);
  }

  /** Splitting a row that has a cube rock at its last one. */
  lemma SplitAtLastCube(s: string) returns (x: string, y: string)
    requires !Free(s, '#')
    ensures s == x + "#" + y && Free(y, '#')
    ensures Roll(s) == Roll(x) + "#" + Pack(y)
  {
    var i := LastCube(s);
    x, y := s[..i], s[i + 1..];
    assert s == x + "#" + y;
  }

  /** Rolling keeps every cube rock where it is, brings in no other, and keeps the number
      of rounded rocks. */
  lemma {:induction false} RollKeeps(s: string)
    ensures forall j :: 0 <= j < |s| ==> (Roll(s)[j] == '#' <==> s[j] == '#')
    ensures CountO(Roll(s)) == CountO(s)
    decreases |s|
  {
    if Free(s, '#') {
      PackPacks(s);
    } else {
      var x, y := SplitAtLastCube(s);
      RollKeeps(x);
      PackPacks(y);
      KeepsAcrossCube(x, y, Roll(x), Pack(y));
    }
  }

  lemma KeepsAcrossCube(x: string, y: string, rx: string, py: string)
    requires |rx| == |x| && |py| == |y| && Free(y, '#') && Free(py, '#')
    requires forall j :: 0 <= j < |x| ==> (rx[j] == '#' <==> x[j] == '#')
    requires CountO(rx) == CountO(x) && CountO(py) == CountO(y)
    ensures forall j :: 0 <= j < |x| + 1 + |y| ==> ((rx + "#" + py)[j] == '#' <==> (x + "#" + y)[j] == '#')
    ensures CountO(rx + "#" + py) == CountO(x + "#" + y)
  {
    CubesAcrossCube(x, y, rx, py);
    CountAcrossCube(x, y);
    CountAcrossCube(rx, py);
  }

  lemma CubesAcrossCube(x: string, y: string, rx: string, py: string)
    requires |rx| == |x| && |py| == |y| && Free(y, '#') && Free(py, '#')
    requires forall j :: 0 <= j < |x| ==> (rx[j] == '#' <==> x[j] == '#')
    ensures forall j :: 0 <= j < |x| + 1 + |y| ==> ((rx + "#" + py)[j] == '#' <==> (x + "#" + y)[j] == '#')
  {
    var a, b := rx + "#" + py, x + "#" + y;
    forall j | 0 <= j < |x| + 1 + |y|
      ensures a[j] == '#' <==> b[j] == '#'
    {
      if j < |x| {
        assert a[j] == rx[j] && b[j] == x[j];
      } else if j > |x| {
        assert a[j] == py[j - |x| - 1] && b[j] == y[j - |x| - 1];
      }
    }
  }

  lemma CountAcrossCube(x: string, y: string)
    ensures CountO(x + "#" + y) == CountO(x) + CountO(y)
  {
    CountOConcat(x + "#", y);
    CountOConcat(x, "#");
  }

  /** After rolling, every rounded rock rests on the start of the row, on a cube rock or on
      another rounded rock. */
  ghost predicate Settled(r: string) {
    forall j :: 0 < j < |r| && r[j] == 'O' ==> r[j - 1] == 'O' || r[j - 1] == '#'
  }

  lemma {:induction false} RollSettles(s: string)
    ensures Settled(Roll(s))
    decreases |s|
  {
    if Free(s, '#') {
      PackPacks(s);
    } else {
      var x, y := SplitAtLastCube(s);
      RollSettles(x);
      PackPacks(y);
      SettledAcrossCube(Roll(x), Pack(y), CountO(y));
    }
  }

  lemma SettledAcrossCube(rx: string, py: string, n: nat)
    requires Settled(rx) && forall j :: 0 <= j < |py| ==> (py[j] == 'O' <==> j < n)
    ensures Settled(rx + "#" + py)
  {
    var r := rx + "#" + py;
    forall j | 0 < j < |r| && r[j] == 'O' ensures r[j - 1] == 'O' || r[j - 1] == '#' {
      if j < |rx| {
        assert r[j] == rx[j] && r[j - 1] == rx[j - 1];
      } else if j > |rx| + 1 {
        assert r[j] == py[j - |rx| - 1] && r[j - 1] == py[j - |rx| - 2];
      }
    }
  }

  lemma {:induction false} PackTwice(s: string)
    ensures Pack(Pack(s)) == Pack(s)
    decreases |s|
  {
    if s == [] {
    } else if s[|s| - 1] == 'O' {
      var n := CountO(s);
      assert n >= 1;
      PackRounds(n);
      var dots := Repeat('.', |s| - n);
      CountONone(dots);
      assert Free(dots, 'O');
      PackAppend(Repeat('O', n), dots);
    } else {
      var init, last := s[..|s| - 1], s[|s| - 1];
      PackTwice(init);
      var p := Pack(init) + [last];
      assert p[..|p| - 1] == Pack(init);
    }
  }

  lemma PackRounds(n: nat)
    requires n >= 1
    ensures Pack(Repeat('O', n)) == Repeat('O', n)
  {
    RepeatCount(n);
    assert Repeat('O', n) + Repeat('.', 0) == Repeat('O', n);
  }

  /** Tilting a row a second time changes nothing. */
  lemma {:induction false} RollTwice(s: string)
    ensures Roll(Roll(s)) == Roll(s)
    decreases |s|
  {
    if Free(s, '#') {
      PackPacks(s);
      PackTwice(s);
    } else {
      var x, y := SplitAtLastCube(s);
      RollTwice(x);
      PackPacks(y);
      PackTwice(y);
      RollLastCube(Roll(x), Pack(y));
    }
  }

  // ---------------------------------------------------------------------------------------
  // `find_groups`
  // ---------------------------------------------------------------------------------------

  /** `RockGroup`: a run of rounded rocks (first and last position and how many there are;
      empty ground may lie between them) or a cube rock. */
  datatype RockGroup = Rounded(lowest: nat, highest: nat, number: nat) | Blocking(pos: nat)

  function Start(g: RockGroup): nat {
    if g.Rounded? then g.lowest else g.pos
  }

  function End(g: RockGroup): nat {
    if g.Rounded? then g.highest else g.pos
  }

  /** A group describes the row: a cube rock at its position, or a run from one rounded
      rock to another with no cube rock in between, counting the rounded rocks. */
  ghost predicate Placed(row: string, g: RockGroup) {
    match g
    case Blocking(p) => p < |row| && row[p] == '#'
    case Rounded(lo, hi, n) =>
      lo <= hi < |row| && row[lo] == 'O' && row[hi] == 'O' && Free(row[lo..hi + 1], '#') &&
      n == CountO(row[lo..hi + 1])
  }

  /** Consecutive groups alternate between cube rocks and runs, with no rounded rock in
      between; a run follows the last cube rock before it. */
  ghost predicate Between(row: string, g: RockGroup, h: RockGroup) {
    End(g) < Start(h) <= |row| && g.Blocking? != h.Blocking? &&
    Free(row[End(g) + 1..Start(h)], 'O') &&
    (h.Rounded? ==> Free(row[End(g) + 1..Start(h)], '#'))
  }

  /** Every group is placed and every two consecutive ones are related by `Between`. */
  ghost predicate Core(row: string, gs: seq<RockGroup>)
    decreases |gs|
  {
    gs == [] ||
    (Core(row, gs[..|gs| - 1]) && Placed(row, gs[|gs| - 1]) &&
     (|gs| > 1 ==> Between(row, gs[|gs| - 2], gs[|gs| - 1])))
  }

  /** Before the first group there is no rounded rock, nor a cube rock if the first group
      is a run. */
  ghost predicate Lead(row: string, g: RockGroup) {
    Start(g) <= |row| && Free(row[..Start(g)], 'O') && (g.Rounded? ==> Free(row[..Start(g)], '#'))
  }

  /** After the last group there is no rock at all. */
  ghost predicate Trail(row: string, g: RockGroup) {
    End(g) < |row| && Free(row[End(g) + 1..], 'O') && Free(row[End(g) + 1..], '#')
  }

  /** What `find_groups` returns, stated as a description of the row: every rounded rock
      belongs to a run, the runs are maximal (a cube rock separates any two), and each run
      is preceded by the last cube rock before it, if there is one. Cube rocks that no run
      follows are dropped, except the last one of the row. */
  ghost predicate GroupsOf(row: string, gs: seq<RockGroup>) {
    Core(row, gs) &&
    (gs == [] ==> Free(row, 'O') && Free(row, '#')) &&
    (gs != [] ==> Lead(row, gs[0]) && Trail(row, gs[|gs| - 1]))
  }

  function Emitted(result: seq<RockGroup>, current: Option<RockGroup>): seq<RockGroup> {
    if current.Some? then result + [current.value] else result
  }

  /** `find_groups`: one pass over the row, keeping the group being built in `current`. */
  method FindGroups(row: string) returns (result: seq<RockGroup>)
    ensures GroupsOf(row, result)
  {
    result := [];
    var current: Option<RockGroup> := None;
    for k := 0 to |row|
      invariant GroupsOf(row[..k], Emitted(result, current))
      invariant current.None? ==> result == []
    {
      result, current := VisitRock(row, k, result, current);
    }
    if current.Some? {
      result := result + [current.value];
    }
    assert row[..|row|] == row;
  }

  /** One character of `find_groups`: a cube rock closes a run and becomes the current
      group; a rounded rock extends the current run or starts one, closing a cube rock;
      anything else is skipped. */
  method VisitRock(row: string, k: nat, result: seq<RockGroup>, current: Option<RockGroup>)
    returns (result': seq<RockGroup>, current': Option<RockGroup>)
    requires k < |row| && GroupsOf(row[..k], Emitted(result, current))
    requires current.None? ==> result == []
    ensures GroupsOf(row[..k + 1], Emitted(result', current'))
    ensures current'.None? ==> result' == []
  {
    ghost var before := Emitted(result, current);
    assert row[..k + 1] == row[..k] + [row[k]];
    result', current' := result, current;
    match row[k] {
      case '#' =>
        if current.Some? && current.value.Rounded? {
          result' := result + [current.value];
        }
        current' := Some(Blocking(k));
        assert Emitted(result', current') == AfterCube(before, k);
        CubeStep(row[..k], before);
      case 'O' =>
        if current.Some? && current.value.Rounded? {
          current' := Some(Rounded(current.value.lowest, k, current.value.number + 1));
        } else {
          if current.Some? {
            result' := result + [current.value];
          }
          current' := Some(Rounded(k, k, 1));
        }
        assert Emitted(result', current') == AfterRound(before, k);
        RoundStep(row[..k], before);
      case _ =>
        OtherStep(row[..k], row[k], before);
    }
  }

  function AfterCube(gs: seq<RockGroup>, k: nat): seq<RockGroup> {
    if gs != [] && gs[|gs| - 1].Blocking? then gs[..|gs| - 1] + [Blocking(k)] else gs + [Blocking(k)]
  }

  function AfterRound(gs: seq<RockGroup>, k: nat): seq<RockGroup> {
    if gs != [] && gs[|gs| - 1].Rounded? then
      var last := gs[|gs| - 1];
      gs[..|gs| - 1] + [Rounded(last.lowest, k, last.number + 1)]
    else gs + [Rounded(k, k, 1)]
  }

  lemma FreeSlices(s: string, a: nat, b: nat, c: nat, ch: char)
    requires a <= b <= c <= |s| && Free(s[a..b], ch) && Free(s[b..c], ch)
    ensures Free(s[a..c], ch)
  {
    assert s[a..c] == s[a..b] + s[b..c];
    FreeConcat(s[a..b], s[b..c], ch);
  }

  lemma PlacedGrow(s: string, c: char, g: RockGroup)
    requires Placed(s, g)
    ensures Placed(s + [c], g)
  {
    if g.Rounded? {
      assert (s + [c])[g.lowest..g.highest + 1] == s[g.lowest..g.highest + 1];
    }
  }

  lemma BetweenGrow(s: string, c: char, g: RockGroup, h: RockGroup)
    requires Between(s, g, h)
    ensures Between(s + [c], g, h)
  {
    assert (s + [c])[End(g) + 1..Start(h)] == s[End(g) + 1..Start(h)];
  }

  lemma LeadGrow(s: string, c: char, g: RockGroup)
    requires Lead(s, g)
    ensures Lead(s + [c], g)
  {
    assert (s + [c])[..Start(g)] == s[..Start(g)];
  }

  lemma {:induction false} CoreGrow(s: string, c: char, gs: seq<RockGroup>)
    requires Core(s, gs)
    ensures Core(s + [c], gs)
    decreases |gs|
  {
    if gs != [] {
      CoreGrow(s, c, gs[..|gs| - 1]);
      PlacedGrow(s, c, gs[|gs| - 1]);
      if |gs| > 1 {
        BetweenGrow(s, c, gs[|gs| - 2], gs[|gs| - 1]);
      }
    }
  }

  lemma CoreAppend(row: string, gs: seq<RockGroup>, g: RockGroup)
    requires Core(row, gs) && Placed(row, g) && (gs != [] ==> Between(row, gs[|gs| - 1], g))
    ensures Core(row, gs + [g])
  {
    assert (gs + [g])[..|gs|] == gs;
  }

  lemma {:induction false} CoreAt(row: string, gs: seq<RockGroup>, i: nat)
    requires Core(row, gs) && i < |gs|
    ensures Placed(row, gs[i]) && (i > 0 ==> Between(row, gs[i - 1], gs[i]))
    decreases |gs|
  {
    if i < |gs| - 1 {
      var t := gs[..|gs| - 1];
      CoreAt(row, t, i);
      assert t[i] == gs[i];
      if i > 0 {
        assert t[i - 1] == gs[i - 1];
      }
    }
  }

  lemma OtherStep(s: string, c: char, gs: seq<RockGroup>)
    requires GroupsOf(s, gs) && c != 'O' && c != '#'
    ensures GroupsOf(s + [c], gs)
  {
    CoreGrow(s, c, gs);
    assert Free([c], 'O') && Free([c], '#');
    if gs == [] {
      FreeConcat(s, [c], 'O');
      FreeConcat(s, [c], '#');
    } else {
      LeadGrow(s, c, gs[0]);
      var e := End(gs[|gs| - 1]) + 1;
      assert (s + [c])[e..] == s[e..] + [c];
      FreeConcat(s[e..], [c], 'O');
      FreeConcat(s[e..], [c], '#');
    }
  }

  lemma CubeStep(s: string, gs: seq<RockGroup>)
    requires GroupsOf(s, gs)
    ensures GroupsOf(s + ['#'], AfterCube(gs, |s|))
  {
    if gs == [] {
      CubeFirst(s);
    } else if gs[|gs| - 1].Rounded? {
      CubeAfterRound(s, gs);
    } else {
      CubeAfterCube(s, gs);
    }
  }

  /** A cube rock at the end of the row. */
  lemma NewCube(s: string)
    ensures Placed(s + ['#'], Blocking(|s|)) && Trail(s + ['#'], Blocking(|s|))
  {
    assert (s + ['#'])[|s| + 1..] == [];
  }

  lemma CubeFirst(s: string)
    requires GroupsOf(s, [])
    ensures GroupsOf(s + ['#'], [] + [Blocking(|s|)])
  {
    var s', k := s + ['#'], |s|;
    NewCube(s);
    assert s'[..k] == s;
    GroupsOfAppend(s', [], Blocking(k));
  }

  lemma CubeAfterRound(s: string, gs: seq<RockGroup>)
    requires GroupsOf(s, gs) && gs != [] && gs[|gs| - 1].Rounded?
    ensures GroupsOf(s + ['#'], gs + [Blocking(|s|)])
  {
    var s', k, hi := s + ['#'], |s|, gs[|gs| - 1].highest;
    CoreGrow(s, '#', gs);
    NewCube(s);
    assert s'[hi + 1..k] == s[hi + 1..];
    LeadGrow(s, '#', gs[0]);
    GroupsOfAppend(s', gs, Blocking(k));
  }

  /** A cube rock after a cube rock replaces it as the current group. */
  lemma CubeAfterCube(s: string, gs: seq<RockGroup>)
    requires GroupsOf(s, gs) && gs != [] && gs[|gs| - 1].Blocking?
    ensures GroupsOf(s + ['#'], gs[..|gs| - 1] + [Blocking(|s|)])
  {
    if |gs| == 1 {
      CubeAfterFirstCube(s, gs[0]);
    } else {
      CubeAfterLaterCube(s, gs);
    }
  }

  lemma CubeAfterFirstCube(s: string, g: RockGroup)
    requires GroupsOf(s, [g]) && g.Blocking?
    ensures GroupsOf(s + ['#'], [Blocking(|s|)])
  {
    var s', k, p := s + ['#'], |s|, g.pos;
    var b := Blocking(k);
    assert Placed(s', b);
    assert s'[k + 1..] == [];
    assert Free(s[p..p + 1], 'O');
    assert s'[..k] == s;
    FreeSlices(s, 0, p, p + 1, 'O');
    FreeSlices(s, 0, p + 1, |s|, 'O');
    assert s[0..|s|] == s;
    CoreAppend(s', [], b);
  }

  lemma CubeAfterLaterCube(s: string, gs: seq<RockGroup>)
    requires GroupsOf(s, gs) && |gs| > 1 && gs[|gs| - 1].Blocking?
    ensures GroupsOf(s + ['#'], gs[..|gs| - 1] + [Blocking(|s|)])
  {
    var s', k, m := s + ['#'], |s|, |gs|;
    var b, p := Blocking(k), gs[m - 1].pos;
    var hi := End(gs[m - 2]);
    CoreGrow(s, '#', gs);
    CoreAt(s, gs, m - 1);
    var pre := gs[..m - 1];
    assert Core(s', pre) && pre[|pre| - 1] == gs[m - 2] && pre[0] == gs[0];
    CubeGap(s, hi, p);
    assert Placed(s', b) && Between(s', gs[m - 2], b);
    LeadGrow(s, '#', gs[0]);
    assert Trail(s', b) by { assert s'[k + 1..] == []; }
    GroupsOfAppend(s', pre, b);
  }

  /** Between a run and a new cube rock at the end, past the cube rock the run was
      followed by, there is no rounded rock. */
  lemma CubeGap(s: string, hi: nat, p: nat)
    requires hi < p < |s| && s[p] == '#'
    requires Free(s[hi + 1..p], 'O') && Free(s[p + 1..], 'O')
    ensures Free((s + ['#'])[hi + 1..|s|], 'O')
  {
    assert Free(s[p..p + 1], 'O');
    assert s[p + 1..] == s[p + 1..|s|];
    FreeSlices(s, hi + 1, p, p + 1, 'O');
    FreeSlices(s, hi + 1, p + 1, |s|, 'O');
    assert (s + ['#'])[hi + 1..|s|] == s[hi + 1..|s|];
  }

  lemma RoundStep(s: string, gs: seq<RockGroup>)
    requires GroupsOf(s, gs)
    ensures GroupsOf(s + ['O'], AfterRound(gs, |s|))
  {
    if gs == [] {
      RoundFirst(s);
    } else if gs[|gs| - 1].Blocking? {
      RoundAfterCube(s, gs);
    } else {
      RoundAfterRound(s, gs);
    }
  }

  /** A lone rounded rock at the end of the row. */
  lemma NewRun(s: string)
    ensures Placed(s + ['O'], Rounded(|s|, |s|, 1)) && Trail(s + ['O'], Rounded(|s|, |s|, 1))
  {
    var s', k := s + ['O'], |s|;
    assert s'[k..k + 1] == ['O'] && CountO(['O']) == 1 by { assert ['O'][..0] == []; }
    assert s'[k + 1..] == [];
  }

  lemma RoundFirst(s: string)
    requires GroupsOf(s, [])
    ensures GroupsOf(s + ['O'], [] + [Rounded(|s|, |s|, 1)])
  {
    var s', k := s + ['O'], |s|;
    NewRun(s);
    assert s'[..k] == s;
    GroupsOfAppend(s', [], Rounded(k, k, 1));
  }

  lemma RoundAfterCube(s: string, gs: seq<RockGroup>)
    requires GroupsOf(s, gs) && gs != [] && gs[|gs| - 1].Blocking?
    ensures GroupsOf(s + ['O'], gs + [Rounded(|s|, |s|, 1)])
  {
    var s', k, p := s + ['O'], |s|, gs[|gs| - 1].pos;
    CoreGrow(s, 'O', gs);
    NewRun(s);
    assert s'[p + 1..k] == s[p + 1..];
    LeadGrow(s, 'O', gs[0]);
    GroupsOfAppend(s', gs, Rounded(k, k, 1));
  }

  /** A rounded rock after a run (with nothing but empty ground between) extends it. */
  lemma RoundAfterRound(s: string, gs: seq<RockGroup>)
    requires GroupsOf(s, gs) && gs != [] && gs[|gs| - 1].Rounded?
    ensures var last := gs[|gs| - 1];
      GroupsOf(s + ['O'], gs[..|gs| - 1] + [Rounded(last.lowest, |s|, last.number + 1)])
  {
    if |gs| == 1 {
      RoundAfterFirstRound(s, gs[0]);
      assert gs[..0] == [];
    } else {
      RoundAfterLaterRound(s, gs);
    }
  }

  lemma RoundAfterFirstRound(s: string, g: RockGroup)
    requires GroupsOf(s, [g]) && g.Rounded?
    ensures GroupsOf(s + ['O'], [] + [Rounded(g.lowest, |s|, g.number + 1)])
  {
    var s', k := s + ['O'], |s|;
    var r := Rounded(g.lowest, k, g.number + 1);
    assert Placed(s, g) && Lead(s, g) && Trail(s, g);
    RunExtends(s, g.lowest, g.highest, g.number);
    LeadGrow(s, 'O', g);
    assert Trail(s', r) by { assert s'[k + 1..] == []; }
    GroupsOfAppend(s', [], r);
  }

  lemma RoundAfterLaterRound(s: string, gs: seq<RockGroup>)
    requires GroupsOf(s, gs) && |gs| > 1 && gs[|gs| - 1].Rounded?
    ensures var last := gs[|gs| - 1];
      GroupsOf(s + ['O'], gs[..|gs| - 1] + [Rounded(last.lowest, |s|, last.number + 1)])
  {
    var s', k, m := s + ['O'], |s|, |gs|;
    var last := gs[m - 1];
    var r := Rounded(last.lowest, k, last.number + 1);
    var pre := gs[..m - 1];
    CoreGrow(s, 'O', gs);
    assert Core(s', pre) && pre[0] == gs[0] && pre[|pre| - 1] == gs[m - 2];
    RunGrows(s, gs);
    assert Trail(s', r) by { assert s'[k + 1..] == []; }
    GroupsOfAppend(s', pre, r);
  }

  lemma RunGrows(s: string, gs: seq<RockGroup>)
    requires GroupsOf(s, gs) && |gs| > 1 && gs[|gs| - 1].Rounded?
    ensures var last := gs[|gs| - 1];
      var r := Rounded(last.lowest, |s|, last.number + 1);
      Placed(s + ['O'], r) && Between(s + ['O'], gs[|gs| - 2], r) && Lead(s + ['O'], gs[0])
  {
    var m := |gs|;
    var last := gs[m - 1];
    CoreAt(s, gs, m - 1);
    RunExtends(s, last.lowest, last.highest, last.number);
    BetweenGrow(s, 'O', gs[m - 2], last);
    LeadGrow(s, 'O', gs[0]);
  }

  lemma GroupsOfAppend(row: string, pre: seq<RockGroup>, g: RockGroup)
    requires Core(row, pre) && Placed(row, g) && Trail(row, g)
    requires pre == [] ==> Lead(row, g)
    requires pre != [] ==> Lead(row, pre[0]) && Between(row, pre[|pre| - 1], g)
    ensures GroupsOf(row, pre + [g])
  {
    var t := pre + [g];
    CoreAppend(row, pre, g);
    assert t[|t| - 1] == g && t[0] == if pre == [] then g else pre[0];
  }

  lemma RunExtends(s: string, lo: nat, hi: nat, n: nat)
    requires Placed(s, Rounded(lo, hi, n)) && Free(s[hi + 1..], 'O') && Free(s[hi + 1..], '#')
    ensures Placed(s + ['O'], Rounded(lo, |s|, n + 1))
  {
    var s' := s + ['O'];
    var run, gap := s[lo..hi + 1], s[hi + 1..];
    assert s'[lo..|s| + 1] == run + gap + ['O'];
    assert Free(['O'], '#') && CountO(['O']) == 1 by { assert ['O'][..0] == []; }
    FreeConcat(run, gap, '#');
    FreeConcat(run + gap, ['O'], '#');
    CountOConcat(run, gap);
    CountOConcat(run + gap, ['O']);
    CountONone(gap);
  }

  // ---------------------------------------------------------------------------------------
  // `roll_left`
  // ---------------------------------------------------------------------------------------

  /** `lowest_fall` before group `i`: just after the last cube rock seen, or 0. */
  function Fall(gs: seq<RockGroup>, i: nat): nat
    requires i <= |gs|
  {
    if i == 0 then 0
    else if gs[i - 1].Blocking? then gs[i - 1].pos + 1
    else Fall(gs, i - 1)
  }

  /** How much of the row has been rolled before group `i`: up to the last run's end. */
  ghost function Done(gs: seq<RockGroup>, i: nat): nat
    requires i <= |gs|
  {
    if i == 0 then 0
    else if gs[i - 1].Rounded? then gs[i - 1].highest + 1
    else Done(gs, i - 1)
  }

  /** The row with everything before `Done(gs, i)` rolled. */
  ghost function Rolled(row: string, gs: seq<RockGroup>, i: nat): string
    requires i <= |gs|
  {
    var d := Done(gs, i);
    if d <= |row| then Roll(row[..d]) + row[d..] else row
  }

  /** Where `roll_left` stands before group `i`. */
  lemma ReadyAt(row: string, gs: seq<RockGroup>, i: nat)
    requires GroupsOf(row, gs) && i <= |gs|
    ensures Done(gs, i) <= |row|
    ensures i == 0 ==> Fall(gs, i) == 0 && Done(gs, i) == 0
    ensures 0 < i && gs[i - 1].Blocking? ==>
      Done(gs, i) <= gs[i - 1].pos && Fall(gs, i) <= |row| && Free(row[Done(gs, i)..Fall(gs, i)], 'O')
  {
    if i > 0 {
      var g := gs[i - 1];
      CoreAt(row, gs, i - 1);
      if g.Blocking? {
        var p := g.pos;
        assert Free(row[p..p + 1], 'O');
        if i == 1 {
          FreeSlices(row, 0, p, p + 1, 'O');
        } else {
          var hi := gs[i - 2].highest;
          FreeSlices(row, hi + 1, p, p + 1, 'O');
        }
      }
    }
  }

  /** `roll_left`: for each run, the stretch from `lowest_fall` (just after the cube rock
      before it) to the run's last rock becomes the run's rounded rocks followed by empty
      ground (`replace_range`); a cube rock moves `lowest_fall` past itself. */
  method RollLeft(row: string) returns (result: string)
    ensures result == Roll(row)
  {
    var groups := FindGroups(row);
    result := row;
    var lowestFall := 0;
    for i := 0 to |groups|
      invariant lowestFall == Fall(groups, i)
      invariant result == Rolled(row, groups, i)
    {
      result, lowestFall := ApplyGroup(row, groups, i, result, lowestFall);
    }
    RollFinished(row, groups);
  }

  /** One group of `roll_left`. */
  method ApplyGroup(row: string, groups: seq<RockGroup>, i: nat, result: string, lowestFall: nat)
    returns (result': string, lowestFall': nat)
    requires GroupsOf(row, groups) && i < |groups|
    requires lowestFall == Fall(groups, i) && result == Rolled(row, groups, i)
    ensures lowestFall' == Fall(groups, i + 1) && result' == Rolled(row, groups, i + 1)
  {
    match groups[i]
    case Blocking(pos) =>
      RolledStep(row, groups, i);
      result', lowestFall' := result, pos + 1;
    case Rounded(lowest, highest, number) =>
      RunApplied(row, groups, i);
      RolledStep(row, groups, i);
      var padding := highest + 1 - (lowestFall + number);
      result' := result[..lowestFall] + Repeat('O', number) + Repeat('.', padding) + result[highest + 1..];
      lowestFall' := lowestFall;
  }

  /** Replacing the stretch from `lowest_fall` to a run's last rock by the run's rounded
      rocks followed by empty ground rolls the row up to that rock. */
  lemma RunApplied(row: string, gs: seq<RockGroup>, i: nat)
    requires GroupsOf(row, gs) && i < |gs| && gs[i].Rounded?
    ensures Fall(gs, i) + gs[i].number <= gs[i].highest + 1 <= |row|
    ensures Rolled(row, gs, i + 1) ==
      Rolled(row, gs, i)[..Fall(gs, i)] + Repeat('O', gs[i].number) +
      Repeat('.', gs[i].highest + 1 - (Fall(gs, i) + gs[i].number)) + Rolled(row, gs, i)[gs[i].highest + 1..]
  {
    RunStart(row, gs, i);
    StretchRolled(row, gs, i);
  }

  lemma StretchRolled(row: string, gs: seq<RockGroup>, i: nat)
    requires i < |gs| && gs[i].Rounded?
    requires Stretch(row, Done(gs, i), Fall(gs, i), gs[i].lowest, gs[i].highest, gs[i].number)
    ensures Fall(gs, i) + gs[i].number <= gs[i].highest + 1 <= |row|
    ensures Rolled(row, gs, i + 1) ==
      Rolled(row, gs, i)[..Fall(gs, i)] + Repeat('O', gs[i].number) +
      Repeat('.', gs[i].highest + 1 - (Fall(gs, i) + gs[i].number)) + Rolled(row, gs, i)[gs[i].highest + 1..]
  {
    var g, done, fall := gs[i], Done(gs, i), Fall(gs, i);
    RollRun(row, done, fall, g.lowest, g.highest, g.number);
    RunRolled(row, gs, i);
  }

  lemma RunRolled(row: string, gs: seq<RockGroup>, i: nat)
    requires i < |gs| && gs[i].Rounded? && gs[i].highest < |row|
    requires Done(gs, i) <= Fall(gs, i) && Fall(gs, i) + gs[i].number <= gs[i].highest + 1
    requires var g, done, fall := gs[i], Done(gs, i), Fall(gs, i);
      Roll(row[..g.highest + 1]) ==
      Roll(row[..done]) + row[done..fall] + Repeat('O', g.number) + Repeat('.', g.highest + 1 - fall - g.number)
    ensures Rolled(row, gs, i + 1) ==
      Rolled(row, gs, i)[..Fall(gs, i)] + Repeat('O', gs[i].number) +
      Repeat('.', gs[i].highest + 1 - (Fall(gs, i) + gs[i].number)) + Rolled(row, gs, i)[gs[i].highest + 1..]
  {
    var g := gs[i];
    RunReplaced(row, Done(gs, i), Fall(gs, i), g.highest, g.number, Rolled(row, gs, i));
    RolledStep(row, gs, i);
  }

  lemma RolledStep(row: string, gs: seq<RockGroup>, i: nat)
    requires i < |gs|
    ensures Fall(gs, i + 1) == if gs[i].Blocking? then gs[i].pos + 1 else Fall(gs, i)
    ensures gs[i].Blocking? ==> Rolled(row, gs, i + 1) == Rolled(row, gs, i)
    ensures gs[i].Rounded? && gs[i].highest < |row| ==>
      Rolled(row, gs, i + 1) == Roll(row[..gs[i].highest + 1]) + row[gs[i].highest + 1..]
  {
    assert Done(gs, i + 1) == if gs[i].Rounded? then gs[i].highest + 1 else Done(gs, i);
  }

  /** What lies before a run when `roll_left` reaches it: nothing but empty ground and cube
      rocks since `done`, and neither rounded rocks nor cube rocks since `fall`, which is the
      start or just after a cube rock. */
  ghost predicate Stretch(row: string, done: nat, fall: nat, lo: nat, hi: nat, n: nat) {
    done <= fall <= lo && Placed(row, Rounded(lo, hi, n)) &&
    (fall == 0 || (done < fall && row[fall - 1] == '#')) &&
    Free(row[done..fall], 'O') && Free(row[fall..lo], 'O') && Free(row[fall..lo], '#')
  }

  lemma RunStart(row: string, gs: seq<RockGroup>, i: nat)
    requires GroupsOf(row, gs) && i < |gs| && gs[i].Rounded?
    ensures Stretch(row, Done(gs, i), Fall(gs, i), gs[i].lowest, gs[i].highest, gs[i].number)
  {
    if i == 0 {
      CoreAt(row, gs, 0);
      StretchFirst(row, gs[0]);
    } else {
      RunAfterCube(row, gs, i);
    }
  }

  lemma RunAfterCube(row: string, gs: seq<RockGroup>, i: nat)
    requires GroupsOf(row, gs) && 0 < i < |gs| && gs[i].Rounded?
    ensures Stretch(row, Done(gs, i), Fall(gs, i), gs[i].lowest, gs[i].highest, gs[i].number)
  {
    var prev, g := gs[i - 1], gs[i];
    ReadyAt(row, gs, i);
    CoreAt(row, gs, i);
    CoreAt(row, gs, i - 1);
    StretchAfterCube(row, Done(gs, i), prev, g);
    assert Fall(gs, i) == prev.pos + 1;
  }

  lemma StretchFirst(row: string, g: RockGroup)
    requires g.Rounded? && Placed(row, g) && Lead(row, g)
    ensures Stretch(row, 0, 0, g.lowest, g.highest, g.number)
  {
    assert Free(row[0..0], 'O');
    assert row[0..g.lowest] == row[..g.lowest];
  }

  lemma StretchAfterCube(row: string, done: nat, prev: RockGroup, g: RockGroup)
    requires g.Rounded? && Placed(row, g) && Placed(row, prev) && Between(row, prev, g)
    requires prev.Blocking? ==> done <= prev.pos && Free(row[done..prev.pos + 1], 'O')
    ensures prev.Blocking?
    ensures Stretch(row, done, prev.pos + 1, g.lowest, g.highest, g.number)
  {
  }

  /** The stretch from just after a cube rock (or the start) to the last rock of a run
      rolls to the run's rounded rocks followed by empty ground. */
  lemma RollRun(row: string, done: nat, fall: nat, lo: nat, hi: nat, n: nat)
    requires Stretch(row, done, fall, lo, hi, n)
    ensures done <= fall && fall + n <= hi + 1 && hi < |row|
    ensures Roll(row[..hi + 1]) ==
      Roll(row[..done]) + row[done..fall] + Repeat('O', n) + Repeat('.', hi + 1 - fall - n)
  {
    RunPacks(row, fall, lo, hi, n);
    if fall == 0 {
      RollRunFirst(row, hi, n);
    } else {
      RollRunLater(row, done, fall, hi, n);
    }
  }

  lemma RollRunFirst(row: string, hi: nat, n: nat)
    requires hi < |row| && n <= hi + 1 && Free(row[0..hi + 1], '#')
    requires Pack(row[0..hi + 1]) == Repeat('O', n) + Repeat('.', hi + 1 - n)
    ensures Roll(row[..hi + 1]) == Roll(row[..0]) + row[0..0] + Repeat('O', n) + Repeat('.', hi + 1 - 0 - n)
  {
    assert row[..hi + 1] == row[0..hi + 1];
    assert row[..0] == [] && row[0..0] == [];
    assert Roll([]) == [];
  }

  lemma RollRunLater(row: string, done: nat, fall: nat, hi: nat, n: nat)
    requires done < fall <= hi < |row| && fall + n <= hi + 1
    requires row[fall - 1] == '#' && Free(row[done..fall], 'O') && Free(row[fall..hi + 1], '#')
    requires Pack(row[fall..hi + 1]) == Repeat('O', n) + Repeat('.', hi + 1 - fall - n)
    ensures Roll(row[..hi + 1]) ==
      Roll(row[..done]) + row[done..fall] + Repeat('O', n) + Repeat('.', hi + 1 - fall - n)
  {
    var seg := row[fall..hi + 1];
    RollBeforeRun(row, done, fall);
    var x := row[..fall - 1];
    assert row[..fall] == x + "#";
    assert row[..hi + 1] == row[..fall] + seg;
    RollLastCube(x, seg);
  }

  /** Up to a cube rock, with no rounded rock after `done`, the row is rolled up to `done`. */
  lemma RollBeforeRun(row: string, done: nat, fall: nat)
    requires done < fall <= |row| && row[fall - 1] == '#' && Free(row[done..fall], 'O')
    ensures Roll(row[..fall - 1]) + "#" == Roll(row[..done]) + row[done..fall]
  {
    var gap := row[done..fall - 1];
    assert row[done..fall] == gap + "#";
    assert Free(gap, 'O') by {
      forall j | 0 <= j < |gap| ensures gap[j] != 'O' {
        var inner := row[done..fall];
        assert gap[j] == inner[j];
      }
    }
    assert row[..fall - 1] == row[..done] + gap;
    RollAppend(row[..done], gap);
    Associative(Roll(row[..done]), gap, "#");
  }

  /** The stretch itself has no cube rock, its rounded rocks are the run's, and it ends in
      one, so packing it gives the run's rocks followed by empty ground. */
  lemma RunPacks(row: string, fall: nat, lo: nat, hi: nat, n: nat)
    requires fall <= lo && Placed(row, Rounded(lo, hi, n))
    requires Free(row[fall..lo], 'O') && Free(row[fall..lo], '#')
    ensures fall + n <= hi + 1
    ensures Free(row[fall..hi + 1], '#')
    ensures Pack(row[fall..hi + 1]) == Repeat('O', n) + Repeat('.', hi + 1 - fall - n)
  {
    var gap, run := row[fall..lo], row[lo..hi + 1];
    SliceSplit(row, fall, lo, hi + 1);
    assert run[|run| - 1] == row[hi];
    PackGapRun(gap, run, n);
  }

  /** Empty ground followed by a run packs to the run's rocks followed by empty ground. */
  lemma PackGapRun(gap: string, run: string, n: nat)
    requires Free(gap, 'O') && Free(gap, '#') && Free(run, '#')
    requires run != [] && run[|run| - 1] == 'O' && n == CountO(run)
    ensures |gap| + n <= |gap + run|
    ensures Free(gap + run, '#')
    ensures Pack(gap + run) == Repeat('O', n) + Repeat('.', |gap + run| - n)
  {
    var seg := gap + run;
    FreeConcat(gap, run, '#');
    CountOConcat(gap, run);
    CountONone(gap);
    assert seg[|seg| - 1] == run[|run| - 1];
    PackEndsRound(seg);
  }

  lemma SliceSplit(s: string, a: nat, b: nat, c: nat)
    requires a <= b <= c <= |s|
    ensures s[a..c] == s[a..b] + s[b..c]
  {
  }

  lemma PackEndsRound(s: string)
    requires s != [] && s[|s| - 1] == 'O'
    ensures Pack(s) == Repeat('O', CountO(s)) + Repeat('.', |s| - CountO(s))
  {
  }

  /** After a run, everything up to its last rock has been rolled. */
  lemma RunReplaced(row: string, done: nat, fall: nat, hi: nat, n: nat, result: string)
    requires done <= fall && fall + n <= hi + 1 && hi < |row|
    requires result == Roll(row[..done]) + row[done..]
    requires Roll(row[..hi + 1]) ==
      Roll(row[..done]) + row[done..fall] + Repeat('O', n) + Repeat('.', hi + 1 - fall - n)
    ensures result[..fall] + Repeat('O', n) + Repeat('.', hi + 1 - (fall + n)) + result[hi + 1..] ==
      Roll(row[..hi + 1]) + row[hi + 1..]
  {
    assert result[..fall] == Roll(row[..done]) + row[done..fall];
    assert result[hi + 1..] == row[hi + 1..];
  }

  lemma RollFinished(row: string, gs: seq<RockGroup>)
    requires GroupsOf(row, gs)
    ensures Rolled(row, gs, |gs|) == Roll(row)
  {
    RestFree(row, gs);
    RollRest(row, Done(gs, |gs|));
  }

  /** After the last group no rounded rock is left. */
  lemma RestFree(row: string, gs: seq<RockGroup>)
    requires GroupsOf(row, gs)
    ensures Done(gs, |gs|) <= |row| && Free(row[Done(gs, |gs|)..], 'O')
  {
    ReadyAt(row, gs, |gs|);
    var done := Done(gs, |gs|);
    if gs == [] {
      assert row[done..] == row;
    } else {
      var last := gs[|gs| - 1];
      if last.Blocking? {
        RestAfterCube(row, done, last.pos);
      }
    }
  }

  lemma RestAfterCube(row: string, done: nat, p: nat)
    requires done <= p < |row| && Free(row[done..p + 1], 'O') && Free(row[p + 1..], 'O')
    ensures Free(row[done..], 'O')
  {
    assert row[p + 1..] == row[p + 1..|row|];
    FreeSlices(row, done, p + 1, |row|, 'O');
    assert row[done..|row|] == row[done..];
  }

  /** Once no rounded rock is left after `done`, the row is rolled. */
  lemma RollRest(row: string, done: nat)
    requires done <= |row| && Free(row[done..], 'O')
    ensures Roll(row) == Roll(row[..done]) + row[done..]
  {
    assert row == row[..done] + row[done..];
    RollAppend(row[..done], row[done..]);
  }

  // ---------------------------------------------------------------------------------------
  // `TerrainMap`: transposing, flipping, rotating, tilting north, spin cycle, load
  // ---------------------------------------------------------------------------------------

  /** The platform, row by row from north to south. */
  datatype TerrainMap = TerrainMap(rows: seq<string>)

  /** What `transpose` needs not to panic: a first row, and no row shorter than it. */
  predicate Transposable(m: TerrainMap) {
    |m.rows| > 0 && forall r :: 0 <= r < |m.rows| ==> |m.rows[r]| >= |m.rows[0]|
  }

  /** A non-empty rectangle: every row as long as the first, which is not empty. */
  predicate Rectangular(m: TerrainMap) {
    |m.rows| > 0 && |m.rows[0]| > 0 && forall r :: 0 <= r < |m.rows| ==> |m.rows[r]| == |m.rows[0]|
  }

  /** The cell at row `r`, column `c`. */
  function At(m: TerrainMap, r: nat, c: nat): char
    requires r < |m.rows| && c < |m.rows[r]|
  {
    m.rows[r][c]
  }

  /** `transpose`: column `c` of the map (as far as the first row reaches) becomes row `c`. */
  function Transpose(m: TerrainMap): (t: TerrainMap)
    requires Transposable(m)
    ensures |t.rows| == |m.rows[0]|
    ensures forall c :: 0 <= c < |t.rows| ==> |t.rows[c]| == |m.rows|
    ensures Rectangular(m) ==> Rectangular(t)
  {
    TerrainMap(seq(|m.rows[0]|, c requires 0 <= c < |m.rows[0]| =>
      seq(|m.rows|, r requires 0 <= r < |m.rows| => m.rows[r][c])))
  }

  /** Row `c` of the transpose is column `c` of the map. */
  lemma TransposeAt(m: TerrainMap, c: nat, r: nat)
    requires Transposable(m) && c < |m.rows[0]| && r < |m.rows|
    ensures At(Transpose(m), c, r) == At(m, r, c)
  {
  }

  /** Transposing a rectangle twice gives it back. */
  lemma TransposeTwice(m: TerrainMap)
    requires Rectangular(m)
    ensures Transpose(Transpose(m)) == m
  {
    var t := Transpose(m);
    var tt := Transpose(t);
    forall r | 0 <= r < |m.rows|
      ensures tt.rows[r] == m.rows[r]
    {
      forall c | 0 <= c < |m.rows[r]|
        ensures tt.rows[r][c] == m.rows[r][c]
      {
        TransposeAt(t, r, c);
        TransposeAt(m, c, r);
      }
    }
  }

  /** `flip`: every row reversed (a mirror image west to east). */
  function Flip(m: TerrainMap): (f: TerrainMap)
    ensures |f.rows| == |m.rows|
    ensures forall r :: 0 <= r < |m.rows| ==> f.rows[r] == Strings.Reverse(m.rows[r])
  {
    TerrainMap(seq(|m.rows|, r requires 0 <= r < |m.rows| => Strings.Reverse(m.rows[r])))
  }

  /** Flipping twice gives the map back. */
  lemma FlipTwice(m: TerrainMap)
    ensures Flip(Flip(m)) == m
  {
    var ff := Flip(Flip(m));
    forall r | 0 <= r < |m.rows|
      ensures ff.rows[r] == m.rows[r]
    {
      assert |ff.rows[r]| == |m.rows[r]|;
    }
  }

  /** `rotate`: a quarter turn clockwise, as a transpose followed by a flip. */
  function Rotate(m: TerrainMap): (q: TerrainMap)
    requires Transposable(m)
    ensures |q.rows| == |m.rows[0]|
    ensures Rectangular(m) ==> Rectangular(q)
  {
    Flip(Transpose(m))
  }

  /** The rotated map: its row `c` is column `c` read from south to north, so what was on
      the west edge is now on the north edge. */
  lemma RotateAt(m: TerrainMap, c: nat, j: nat)
    requires Rectangular(m) && c < |m.rows[0]| && j < |m.rows|
    ensures |Rotate(m).rows[c]| == |m.rows|
    ensures At(Rotate(m), c, j) == At(m, |m.rows| - 1 - j, c)
  {
    TransposeAt(m, c, |m.rows| - 1 - j);
  }

  /** Two quarter turns: the map upside down and mirrored. */
  lemma RotateTwiceAt(m: TerrainMap, r: nat, c: nat)
    requires Rectangular(m) && r < |m.rows| && c < |m.rows[0]|
    ensures Rectangular(Rotate(Rotate(m)))
    ensures |Rotate(Rotate(m)).rows| == |m.rows| && |Rotate(Rotate(m)).rows[r]| == |m.rows[0]|
    ensures At(Rotate(Rotate(m)), r, c) == At(m, |m.rows| - 1 - r, |m.rows[0]| - 1 - c)
  {
    var q := Rotate(m);
    RotateAt(q, r, c);
    RotateAt(m, |m.rows[0]| - 1 - c, r);
  }

  /** `h` is `m` turned upside down and mirrored. */
  ghost predicate HalfTurned(m: TerrainMap, h: TerrainMap)
    requires Rectangular(m)
  {
    Rectangular(h) && |h.rows| == |m.rows| && |h.rows[0]| == |m.rows[0]| &&
    forall r, c :: 0 <= r < |m.rows| && 0 <= c < |m.rows[0]| ==>
      At(h, r, c) == At(m, |m.rows| - 1 - r, |m.rows[0]| - 1 - c)
  }

  lemma HalfTurn(m: TerrainMap)
    requires Rectangular(m)
    ensures HalfTurned(m, Rotate(Rotate(m)))
  {
    var h := Rotate(Rotate(m));
    RotateTwiceAt(m, 0, 0);
    forall r, c | 0 <= r < |m.rows| && 0 <= c < |m.rows[0]|
      ensures At(h, r, c) == At(m, |m.rows| - 1 - r, |m.rows[0]| - 1 - c)
    {
      RotateTwiceAt(m, r, c);
    }
  }

  lemma HalfTurnTwice(m: TerrainMap, h: TerrainMap, b: TerrainMap)
    requires Rectangular(m) && HalfTurned(m, h) && HalfTurned(h, b)
    ensures b == m
  {
    forall r | 0 <= r < |m.rows|
      ensures b.rows[r] == m.rows[r]
    {
      forall c | 0 <= c < |m.rows[0]|
        ensures b.rows[r][c] == m.rows[r][c]
      {
        assert At(b, r, c) == At(h, |m.rows| - 1 - r, |m.rows[0]| - 1 - c);
      }
    }
  }

  /** Four quarter turns give the map back. */
  lemma RotateFour(m: TerrainMap)
    requires Rectangular(m)
    ensures Rotate(Rotate(Rotate(Rotate(m)))) == m
  {
    var h := Rotate(Rotate(m));
    HalfTurn(m);
    HalfTurn(h);
    HalfTurnTwice(m, h, Rotate(Rotate(h)));
  }

  /** Column `c` of the map, from north to south. */
  function Column(m: TerrainMap, c: nat): string
    requires Rectangular(m) && c < |m.rows[0]|
  {
    Transpose(m).rows[c]
  }

  /** `roll_north`: every column rolled towards its start (the north edge), by transposing,
      rolling every row left and transposing back. */
  function RollNorth(m: TerrainMap): (n: TerrainMap)
    requires Rectangular(m)
    ensures Rectangular(n) && |n.rows| == |m.rows| && |n.rows[0]| == |m.rows[0]|
  {
    var t := Transpose(m);
    Transpose(TerrainMap(seq(|t.rows|, c requires 0 <= c < |t.rows| => Roll(t.rows[c]))))
  }

  /** Each column of the tilted map is that column rolled north. */
  lemma RollNorthColumn(m: TerrainMap, c: nat)
    requires Rectangular(m) && c < |m.rows[0]|
    ensures Column(RollNorth(m), c) == Roll(Column(m, c))
  {
    var t := Transpose(m);
    var rolled := TerrainMap(seq(|t.rows|, c requires 0 <= c < |t.rows| => Roll(t.rows[c])));
    assert Rectangular(rolled);
    TransposeTwice(rolled);
  }

  /** Tilting north leaves every cube rock where it is, keeps the number of rounded rocks
      in every column, and leaves every rounded rock resting on the north edge, a cube
      rock or another rounded rock. */
  lemma RollNorthKeeps(m: TerrainMap, c: nat)
    requires Rectangular(m) && c < |m.rows[0]|
    ensures forall r :: 0 <= r < |m.rows| ==> (At(RollNorth(m), r, c) == '#' <==> At(m, r, c) == '#')
    ensures CountO(Column(RollNorth(m), c)) == CountO(Column(m, c))
    ensures Settled(Column(RollNorth(m), c))
  {
    var n := RollNorth(m);
    RollNorthColumn(m, c);
    RollKeeps(Column(m, c));
    RollSettles(Column(m, c));
    forall r | 0 <= r < |m.rows|
      ensures At(n, r, c) == '#' <==> At(m, r, c) == '#'
    {
      TransposeAt(n, c, r);
      TransposeAt(m, c, r);
    }
  }

  /** Two maps of the same size with their cube rocks in the same places. */
  ghost predicate SameBlocks(a: TerrainMap, b: TerrainMap) {
    Rectangular(a) && Rectangular(b) && |a.rows| == |b.rows| && |a.rows[0]| == |b.rows[0]| &&
    forall r, c :: 0 <= r < |a.rows| && 0 <= c < |a.rows[0]| ==>
      (At(a, r, c) == '#' <==> At(b, r, c) == '#')
  }

  lemma RollNorthBlocks(m: TerrainMap)
    requires Rectangular(m)
    ensures SameBlocks(RollNorth(m), m)
  {
    forall r, c | 0 <= r < |m.rows| && 0 <= c < |m.rows[0]|
      ensures At(RollNorth(m), r, c) == '#' <==> At(m, r, c) == '#'
    {
      RollNorthKeeps(m, c);
    }
  }

  lemma RotateBlocks(a: TerrainMap, b: TerrainMap)
    requires SameBlocks(a, b)
    ensures SameBlocks(Rotate(a), Rotate(b))
  {
    forall c, j | 0 <= c < |a.rows[0]| && 0 <= j < |a.rows|
      ensures At(Rotate(a), c, j) == '#' <==> At(Rotate(b), c, j) == '#'
    {
      RotateAt(a, c, j);
      RotateAt(b, c, j);
    }
  }

  /** One step of `spin_cycle`: tilt north, then turn clockwise. */
  function Cycle(m: TerrainMap): (n: TerrainMap)
    requires Rectangular(m)
    ensures Rectangular(n)
  {
    Rotate(RollNorth(m))
  }

  /** `k` steps of the fold in `spin_cycle`. */
  function Spin(m: TerrainMap, k: nat): (n: TerrainMap)
    requires Rectangular(m)
    ensures Rectangular(n)
    decreases k
  {
    if k == 0 then m else Spin(Cycle(m), k - 1)
  }

  /** `spin_cycle`: the platform tilted north, west, south and east, ending as it started
      (north up). */
  function SpinCycle(m: TerrainMap): (n: TerrainMap)
    requires Rectangular(m)
    ensures Rectangular(n)
  {
    Spin(m, 4)
  }

  /** `k` quarter turns. */
  function Turn(m: TerrainMap, k: nat): (n: TerrainMap)
    requires Rectangular(m)
    ensures Rectangular(n)
    decreases k
  {
    if k == 0 then m else Turn(Rotate(m), k - 1)
  }

  /** After `k` steps the cube rocks are where `k` quarter turns put them. */
  lemma {:induction false} SpinBlocks(m: TerrainMap, b: TerrainMap, k: nat)
    requires SameBlocks(m, b)
    ensures SameBlocks(Spin(m, k), Turn(b, k))
    decreases k
  {
    if k > 0 {
      RollNorthBlocks(m);
      SameBlocksTrans(RollNorth(m), m, b);
      RotateBlocks(RollNorth(m), b);
      SpinBlocks(Cycle(m), Rotate(b), k - 1);
    }
  }

  lemma SameBlocksTrans(a: TerrainMap, b: TerrainMap, c: TerrainMap)
    requires SameBlocks(a, b) && SameBlocks(b, c)
    ensures SameBlocks(a, c)
  {
  }

  /** A spin cycle moves rounded rocks only: every cube rock stays where it is, and the
      map keeps its size. */
  lemma SpinCycleBlocks(m: TerrainMap)
    requires Rectangular(m)
    ensures SameBlocks(SpinCycle(m), m)
  {
    SpinBlocks(m, m, 4);
    RotateFour(m);
    var q1 := Rotate(m);
    var q2 := Rotate(q1);
    var q3 := Rotate(q2);
    assert Turn(q3, 1) == Rotate(q3);
    assert Turn(q2, 2) == Turn(q3, 1);
    assert Turn(q1, 3) == Turn(q2, 2);
  }

  // The load on the north support beams.

  /** The load of one column: a rounded rock `k` cells south of the north edge weighs
      `factor - k` (the number of rows from it to the south edge, itself included). */
  function ColumnLoad(col: string, factor: nat): nat
    requires |col| <= factor
    decreases |col|
  {
    if col == [] then 0
    else ColumnLoad(col[..|col| - 1], factor) + (if col[|col| - 1] == 'O' then factor - (|col| - 1) else 0)
  }

  /** The loads of the first `k` rows of the transpose (the columns). */
  function LoadSum(cols: seq<string>, factor: nat, k: nat): nat
    requires k <= |cols| && forall c :: 0 <= c < |cols| ==> |cols[c]| <= factor
  {
    if k == 0 then 0 else LoadSum(cols, factor, k - 1) + ColumnLoad(cols[k - 1], factor)
  }

  /** `load_on_beams`: the loads of all the columns, with the number of rows as factor. */
  function LoadOnBeams(m: TerrainMap): nat
    requires Transposable(m)
  {
    var t := Transpose(m);
    LoadSum(t.rows, |m.rows|, |t.rows|)
  }

  /** The load counted row by row: row `r` weighs its number of rounded rocks times the
      number of rows from it to the south edge. */
  function RowsLoad(m: TerrainMap, n: nat): nat
    requires n <= |m.rows|
  {
    if n == 0 then 0 else RowsLoad(m, n - 1) + (|m.rows| - (n - 1)) * CountO(m.rows[n - 1])
  }

  /** The weight of one cell. */
  function Weight(m: TerrainMap, r: nat, c: nat): nat
    requires Rectangular(m) && r < |m.rows| && c < |m.rows[0]|
  {
    if At(m, r, c) == 'O' then |m.rows| - r else 0
  }

  /** The weights of the first `n` cells of column `c`. */
  function ColSum(m: TerrainMap, c: nat, n: nat): nat
    requires Rectangular(m) && c < |m.rows[0]| && n <= |m.rows|
  {
    if n == 0 then 0 else ColSum(m, c, n - 1) + Weight(m, n - 1, c)
  }

  /** The weights of the first `k` cells of row `r`. */
  function RowSum(m: TerrainMap, r: nat, k: nat): nat
    requires Rectangular(m) && r < |m.rows| && k <= |m.rows[0]|
  {
    if k == 0 then 0 else RowSum(m, r, k - 1) + Weight(m, r, k - 1)
  }

  /** The first `n` rows and `k` columns, column by column. */
  function ByColumns(m: TerrainMap, n: nat, k: nat): nat
    requires Rectangular(m) && n <= |m.rows| && k <= |m.rows[0]|
  {
    if k == 0 then 0 else ByColumns(m, n, k - 1) + ColSum(m, k - 1, n)
  }

  /** The first `n` rows and `k` columns, row by row. */
  function ByRows(m: TerrainMap, n: nat, k: nat): nat
    requires Rectangular(m) && n <= |m.rows| && k <= |m.rows[0]|
  {
    if n == 0 then 0 else ByRows(m, n - 1, k) + RowSum(m, n - 1, k)
  }

  lemma {:induction false} ByColumnsStep(m: TerrainMap, n: nat, k: nat)
    requires Rectangular(m) && n < |m.rows| && k <= |m.rows[0]|
    ensures ByColumns(m, n + 1, k) == ByColumns(m, n, k) + RowSum(m, n, k)
  {
    if k > 0 {
      ByColumnsStep(m, n, k - 1);
    }
  }

  lemma {:induction false} Exchange(m: TerrainMap, n: nat, k: nat)
    requires Rectangular(m) && n <= |m.rows| && k <= |m.rows[0]|
    ensures ByColumns(m, n, k) == ByRows(m, n, k)
  {
    if n == 0 {
      ByColumnsEmpty(m, k);
    } else {
      ByColumnsStep(m, n - 1, k);
      Exchange(m, n - 1, k);
    }
  }

  lemma {:induction false} ByColumnsEmpty(m: TerrainMap, k: nat)
    requires Rectangular(m) && k <= |m.rows[0]|
    ensures ByColumns(m, 0, k) == 0
  {
    if k > 0 {
      ByColumnsEmpty(m, k - 1);
    }
  }

  lemma {:induction false} ColumnLoadIs(m: TerrainMap, c: nat, n: nat)
    requires Rectangular(m) && c < |m.rows[0]| && n <= |m.rows|
    ensures ColumnLoad(Column(m, c)[..n], |m.rows|) == ColSum(m, c, n)
  {
    var col := Column(m, c);
    if n > 0 {
      ColumnLoadIs(m, c, n - 1);
      assert col[..n][..n - 1] == col[..n - 1];
      TransposeAt(m, c, n - 1);
    }
  }

  lemma {:induction false} LoadSumIs(m: TerrainMap, k: nat)
    requires Rectangular(m) && k <= |m.rows[0]|
    ensures LoadSum(Transpose(m).rows, |m.rows|, k) == ByColumns(m, |m.rows|, k)
  {
    if k > 0 {
      LoadSumIs(m, k - 1);
      var col := Column(m, k - 1);
      ColumnLoadIs(m, k - 1, |m.rows|);
      assert col[..|m.rows|] == col;
    }
  }

  lemma {:induction false} RowSumIs(m: TerrainMap, r: nat, k: nat)
    requires Rectangular(m) && r < |m.rows| && k <= |m.rows[0]|
    ensures RowSum(m, r, k) == (|m.rows| - r) * CountO(m.rows[r][..k])
  {
    var row := m.rows[r];
    if k > 0 {
      RowSumIs(m, r, k - 1);
      assert row[..k][..k - 1] == row[..k - 1];
    }
  }

  lemma {:induction false} ByRowsIs(m: TerrainMap, n: nat)
    requires Rectangular(m) && n <= |m.rows|
    ensures ByRows(m, n, |m.rows[0]|) == RowsLoad(m, n)
  {
    if n > 0 {
      ByRowsIs(m, n - 1);
      RowSumIs(m, n - 1, |m.rows[0]|);
      assert m.rows[n - 1][..|m.rows[0]|] == m.rows[n - 1];
    }
  }

  /** `load_on_beams` sums over the columns; it equals the sum over the rows of each row's
      rounded rocks times its distance (in rows, itself included) from the south edge. */
  lemma LoadByRows(m: TerrainMap)
    requires Rectangular(m)
    ensures LoadOnBeams(m) == RowsLoad(m, |m.rows|)
  {
    LoadSumIs(m, |m.rows[0]|);
    Exchange(m, |m.rows|, |m.rows[0]|);
    ByRowsIs(m, |m.rows|);
  }
}

/** Day 11 (day11/src/lib.rs): a sky map of galaxies '#'. Every row and column without a
    galaxy is expanded into `factor` copies of itself; the answer is the sum of the
    Manhattan distances between all pairs of galaxies after the expansion. Galaxies are
    (row, column) coordinates. */
module Day11 {

  datatype Coord = Coord(row: nat, col: nat)

  datatype SkyMap = SkyMap(coords: seq<Coord>)

  // ---------------------------------------------------------------------------------------
  // Coordinates
  // ---------------------------------------------------------------------------------------

  /** `usize::abs_diff`. */
  function AbsDiff(x: nat, y: nat): nat {
    if x < y then y - x else x - y
  }

  /** `Coord::manhattan`. */
  function Manhattan(a: Coord, b: Coord): nat {
    AbsDiff(a.row, b.row) + AbsDiff(a.col, b.col)
  }

  /** The Manhattan distance is a metric: symmetric, zero exactly between equal coordinates,
      and it satisfies the triangle inequality. */
  lemma ManhattanMetric(a: Coord, b: Coord, c: Coord)
    ensures Manhattan(a, b) == Manhattan(b, a)
    ensures Manhattan(a, b) == 0 <==> a == b
    ensures Manhattan(a, c) <= Manhattan(a, b) + Manhattan(b, c)
  {
  }

  /** `rows.iter().take_while(|r| r < row).count()`: the length of the leading run of
      entries below `row`. */
  function CountBelow(rows: seq<nat>, row: nat): (k: nat)
    ensures k <= |rows|
    ensures forall i :: 0 <= i < k ==> rows[i] < row
    ensures k < |rows| ==> rows[k] >= row
  {
    if rows == [] || rows[0] >= row then 0 else 1 + CountBelow(rows[1..], row)
  }

  predicate StrictlyIncreasing(s: seq<nat>) {
    forall i, j :: 0 <= i < j < |s| ==> s[i] < s[j]
  }

  /** On strictly increasing entries the count is that of all the entries below `row`. */
  lemma CountBelowSorted(rows: seq<nat>, row: nat)
    requires StrictlyIncreasing(rows)
    ensures forall i :: CountBelow(rows, row) <= i < |rows| ==> rows[i] >= row
  {
  }

  /** Strictly increasing entries that all lie in `[lo, hi)` are at most `hi - lo`. */
  lemma {:induction false} StrictlyIncreasingSpan(s: seq<nat>, lo: nat, hi: nat)
    requires lo <= hi && StrictlyIncreasing(s) && forall i :: 0 <= i < |s| ==> lo <= s[i] < hi
    ensures |s| <= hi - lo
    decreases |s|
  {
    if |s| > 0 {
      var t := s[1..];
      assert lo <= s[0] < hi;
      assert forall i :: 0 <= i < |t| ==> t[i] == s[i + 1] && s[0] < s[i + 1];
      StrictlyIncreasingSpan(t, s[0] + 1, hi);
    }
  }

  /** Distinct occupied rows below a row number at most that row, so the subtraction in
      `transform` never underflows. */
  lemma CountBelowBound(rows: seq<nat>)
    requires StrictlyIncreasing(rows)
    ensures forall row: nat :: CountBelow(rows, row) <= row
  {
    forall row: nat
      ensures CountBelow(rows, row) <= row
    {
      StrictlyIncreasingSpan(rows[..CountBelow(rows, row)], 0, row);
    }
  }

  /** Between two values the count grows by at most their difference. */
  lemma CountBelowGap(rows: seq<nat>, a: nat, b: nat)
    requires StrictlyIncreasing(rows) && a <= b
    ensures CountBelow(rows, a) <= CountBelow(rows, b)
    ensures CountBelow(rows, b) - CountBelow(rows, a) <= b - a
  {
    var ka, kb := CountBelow(rows, a), CountBelow(rows, b);
    CountBelowSorted(rows, a);
    StrictlyIncreasingSpan(rows[ka..kb], a, b);
  }

  /** One coordinate value after expansion: `factor - 1` more for each of the `v - count`
      unoccupied values below it. */
  function Shift(v: nat, count: nat, factor: nat): nat
    requires count <= v && factor >= 1
  {
    v + (v - count) * (factor - 1)
  }

  /** Shifting keeps strict order when the count grows by no more than the value does. */
  lemma ShiftMonotone(a: nat, ka: nat, b: nat, kb: nat, factor: nat)
    requires ka <= a && kb <= b && factor >= 1 && a < b && ka <= kb && kb - ka <= b - a
    ensures Shift(a, ka, factor) < Shift(b, kb, factor)
  {
    MulMonotone(a - ka, b - kb, factor - 1);
  }

  /** Between two values the shift adds `factor - 1` for each unoccupied value in between:
      `b - a` values, of which `kb - ka` are occupied. */
  lemma ShiftGap(a: nat, ka: nat, b: nat, kb: nat, factor: nat)
    requires ka <= a && kb <= b && factor >= 1 && a <= b && ka <= kb && kb - ka <= b - a
    ensures Shift(b, kb, factor) - Shift(a, ka, factor) == (b - a) + ((b - a) - (kb - ka)) * (factor - 1)
  {
    var f := factor - 1;
    calc {
      Shift(b, kb, factor) - Shift(a, ka, factor);
      (b - a) + ((b - kb) * f - (a - ka) * f);
      { assert (b - kb) * f - (a - ka) * f == ((b - kb) - (a - ka)) * f; }
      (b - a) + ((b - a) - (kb - ka)) * f;
    }
  }

  /** Shifting never moves a value back, and with factor 1 it does not move it. */
  lemma ShiftForward(v: nat, count: nat, factor: nat)
    requires count <= v && factor >= 1
    ensures Shift(v, count, factor) >= v
    ensures factor == 1 ==> Shift(v, count, factor) == v
  {
    MulMonotone(0, v - count, factor - 1);
  }

  lemma MulMonotone(x: nat, y: nat, f: nat)
    requires x <= y
    ensures x * f <= y * f
  {
  }

  /** `Coord::transform`: each coordinate shifted by the unoccupied rows (columns) below it.
      Defined when nothing underflows: `factor - 1` and `row - row_count` are `usize`
      subtractions. */
  function Transform(c: Coord, factor: nat, rows: seq<nat>, cols: seq<nat>): (r: Coord)
    requires factor >= 1 && CountBelow(rows, c.row) <= c.row && CountBelow(cols, c.col) <= c.col
  {
    Coord(Shift(c.row, CountBelow(rows, c.row), factor), Shift(c.col, CountBelow(cols, c.col), factor))
  }

  /** Transforming against strictly increasing occupied rows and columns keeps strict order
      between rows and between columns, never moves a coordinate back, and with factor 1
      moves nothing. */
  lemma TransformOrder(a: Coord, b: Coord, factor: nat, rows: seq<nat>, cols: seq<nat>)
    requires factor >= 1 && StrictlyIncreasing(rows) && StrictlyIncreasing(cols)
    ensures CountBelow(rows, a.row) <= a.row && CountBelow(cols, a.col) <= a.col
    ensures CountBelow(rows, b.row) <= b.row && CountBelow(cols, b.col) <= b.col
    ensures a.row < b.row ==> Transform(a, factor, rows, cols).row < Transform(b, factor, rows, cols).row
    ensures a.col < b.col ==> Transform(a, factor, rows, cols).col < Transform(b, factor, rows, cols).col
    ensures Transform(a, factor, rows, cols).row >= a.row && Transform(a, factor, rows, cols).col >= a.col
    ensures factor == 1 ==> Transform(a, factor, rows, cols) == a
  {
    CountBelowBound(rows);
    CountBelowBound(cols);
    ShiftForward(a.row, CountBelow(rows, a.row), factor);
    ShiftForward(a.col, CountBelow(cols, a.col), factor);
    if a.row < b.row {
      CountBelowGap(rows, a.row, b.row);
      ShiftMonotone(a.row, CountBelow(rows, a.row), b.row, CountBelow(rows, b.row), factor);
    }
    if a.col < b.col {
      CountBelowGap(cols, a.col, b.col);
      ShiftMonotone(a.col, CountBelow(cols, a.col), b.col, CountBelow(cols, b.col), factor);
    }
  }

  // ---------------------------------------------------------------------------------------
  // Expansion
  // ---------------------------------------------------------------------------------------

  function RowsOf(coords: seq<Coord>): set<nat> {
    set i | 0 <= i < |coords| :: coords[i].row
  }

  function ColsOf(coords: seq<Coord>): set<nat> {
    set i | 0 <= i < |coords| :: coords[i].col
  }

  predicate IsLeast(m: nat, s: set<nat>) {
    m in s && forall x :: x in s ==> m <= x
  }

  /** A non-empty set has a least element. */
  lemma {:induction false} LeastExists(s: set<nat>)
    requires s != {}
    ensures exists m :: IsLeast(m, s)
    decreases |s|
  {
    var y :| y in s;
    if s != {y} {
      var rest := s - {y};
      LeastExists(rest);
      var m' :| IsLeast(m', rest);
      assert forall x :: x in s ==> x == y || x in rest;
      if y < m' {
        assert IsLeast(y, s);
      } else {
        assert IsLeast(m', s);
      }
    } else {
      assert IsLeast(y, s);
    }
  }

  /** The elements of a set in increasing order: the `HashSet` collected into a `Vec` and
      sorted (the order the hash set yields them in does not matter once sorted). */
  function Sorted(s: set<nat>): (r: seq<nat>)
    ensures StrictlyIncreasing(r)
    ensures forall x :: x in s <==> x in r
    decreases |s|
  {
    if s == {} then []
    else
      LeastExists(s);
      var m :| IsLeast(m, s);
      [m] + Sorted(s - {m})
  }

  /** What `SkyMap::expand` yields: every coordinate transformed against the sorted occupied
      rows and columns. */
  function Expanded(m: SkyMap, factor: nat): (r: SkyMap)
    requires factor >= 1
    ensures |r.coords| == |m.coords|
  {
    var rows := Sorted(RowsOf(m.coords));
    var cols := Sorted(ColsOf(m.coords));
    CountBelowBound(rows);
    CountBelowBound(cols);
    SkyMap(seq(|m.coords|, i requires 0 <= i < |m.coords| => Transform(m.coords[i], factor, rows, cols)))
  }

  /** `SkyMap::expand`: collects the occupied rows and columns into sets, sorts them and
      transforms every coordinate. */
  method Expand(m: SkyMap, factor: nat) returns (r: SkyMap)
    requires factor >= 1
    ensures r == Expanded(m, factor)
  {
    var uniqueRows: set<nat> := {};
    var uniqueCols: set<nat> := {};
    for k := 0 to |m.coords|
      invariant uniqueRows == RowsOf(m.coords[..k])
      invariant uniqueCols == ColsOf(m.coords[..k])
    {
      assert m.coords[..k + 1] == m.coords[..k] + [m.coords[k]];
      uniqueRows := uniqueRows + {m.coords[k].row};
      uniqueCols := uniqueCols + {m.coords[k].col};
    }
    assert m.coords[..|m.coords|] == m.coords;
    var rows := Sorted(uniqueRows);
    var cols := Sorted(uniqueCols);
    CountBelowBound(rows);
    CountBelowBound(cols);
    var coords := seq(|m.coords|, i requires 0 <= i < |m.coords| => Transform(m.coords[i], factor, rows, cols));
    return SkyMap(coords);
  }

  /** Expansion keeps the number of galaxies and the strict order between their rows and
      between their columns, never moves a galaxy up or left, and with factor 1 changes
      nothing. */
  lemma ExpandedOrder(m: SkyMap, factor: nat, i: nat, j: nat)
    requires factor >= 1 && i < |m.coords| && j < |m.coords|
    ensures |Expanded(m, factor).coords| == |m.coords|
    ensures m.coords[i].row < m.coords[j].row ==> Expanded(m, factor).coords[i].row < Expanded(m, factor).coords[j].row
    ensures m.coords[i].col < m.coords[j].col ==> Expanded(m, factor).coords[i].col < Expanded(m, factor).coords[j].col
    ensures Expanded(m, factor).coords[i].row >= m.coords[i].row && Expanded(m, factor).coords[i].col >= m.coords[i].col
    ensures factor == 1 ==> Expanded(m, factor).coords[i] == m.coords[i]
  {
    var rows := Sorted(RowsOf(m.coords));
    var cols := Sorted(ColsOf(m.coords));
    TransformOrder(m.coords[i], m.coords[j], factor, rows, cols);
  }

  /** Expansion never brings two galaxies closer, and with factor 1 keeps every distance. */
  lemma ExpandedDistance(m: SkyMap, factor: nat, i: nat, j: nat)
    requires factor >= 1 && i < |m.coords| && j < |m.coords|
    ensures Manhattan(Expanded(m, factor).coords[i], Expanded(m, factor).coords[j]) >= Manhattan(m.coords[i], m.coords[j])
    ensures factor == 1 ==> Manhattan(Expanded(m, factor).coords[i], Expanded(m, factor).coords[j]) == Manhattan(m.coords[i], m.coords[j])
  {
    var rows := Sorted(RowsOf(m.coords));
    var cols := Sorted(ColsOf(m.coords));
    var a, b := m.coords[i], m.coords[j];
    CountBelowBound(rows);
    CountBelowBound(cols);
    ExpandedOrder(m, factor, i, j);
    ExpandedOrder(m, factor, j, i);
    ShiftApart(a.row, b.row, factor, rows);
    ShiftApart(a.col, b.col, factor, cols);
  }

  /** Two shifted values lie at least as far apart as the values themselves. */
  lemma ShiftApart(x: nat, y: nat, factor: nat, occupied: seq<nat>)
    requires factor >= 1 && StrictlyIncreasing(occupied)
    ensures CountBelow(occupied, x) <= x && CountBelow(occupied, y) <= y
    ensures AbsDiff(Shift(x, CountBelow(occupied, x), factor), Shift(y, CountBelow(occupied, y), factor)) >= AbsDiff(x, y)
  {
    CountBelowBound(occupied);
    if x <= y {
      CountBelowGap(occupied, x, y);
      ShiftGap(x, CountBelow(occupied, x), y, CountBelow(occupied, y), factor);
      MulMonotone(0, (y - x) - (CountBelow(occupied, y) - CountBelow(occupied, x)), factor - 1);
    } else {
      CountBelowGap(occupied, y, x);
      ShiftGap(y, CountBelow(occupied, y), x, CountBelow(occupied, x), factor);
      MulMonotone(0, (x - y) - (CountBelow(occupied, x) - CountBelow(occupied, y)), factor - 1);
    }
  }

  // ---------------------------------------------------------------------------------------
  // Distances
  // ---------------------------------------------------------------------------------------

  /** The distances from galaxy `i` to the galaxies from `j` on, in order. */
  function DistancesBetween(cs: seq<Coord>, i: nat, j: nat): (r: seq<nat>)
    requires i < |cs| && j <= |cs|
    ensures |r| == |cs| - j
    ensures forall k :: 0 <= k < |r| ==> r[k] == Manhattan(cs[i], cs[j + k])
    decreases |cs| - j
  {
    if j == |cs| then [] else [Manhattan(cs[i], cs[j])] + DistancesBetween(cs, i, j + 1)
  }

  /** The distances from galaxy `i` to each later galaxy, in order. */
  function DistancesFrom(cs: seq<Coord>, i: nat): (r: seq<nat>)
    requires i < |cs|
    ensures |r| == |cs| - i - 1
    ensures forall k :: 0 <= k < |r| ==> r[k] == Manhattan(cs[i], cs[i + 1 + k])
  {
    DistancesBetween(cs, i, i + 1)
  }

  /** The distances from the first `i` galaxies to their later galaxies. */
  function DistancesUpTo(cs: seq<Coord>, i: nat): seq<nat>
    requires i <= |cs|
  {
    if i == 0 then [] else DistancesUpTo(cs, i - 1) + DistancesFrom(cs, i - 1)
  }

  /** `SkyMap::distances`: for each pair `i < j` in lexicographic order, the distance between
      galaxies `i` and `j`. The source computes `num_coords - 1` in `usize`, which underflows
      on a map without galaxies, hence the precondition. */
  method Distances(m: SkyMap) returns (result: seq<nat>)
    requires |m.coords| >= 1
    ensures result == DistancesUpTo(m.coords, |m.coords| - 1)
  {
    var cs := m.coords;
    var n := |cs|;
    result := [];
    for i := 0 to n - 1
      invariant result == DistancesUpTo(cs, i)
    {
      for j := i + 1 to n
        invariant result == DistancesUpTo(cs, i) + DistancesFrom(cs, i)[..j - i - 1]
      {
        assert DistancesFrom(cs, i)[..j - i] == DistancesFrom(cs, i)[..j - i - 1] + [Manhattan(cs[i], cs[j])];
        result := result + [Manhattan(cs[i], cs[j])];
      }
      assert DistancesFrom(cs, i)[..n - i - 1] == DistancesFrom(cs, i);
    }
  }

  /** There are `i * (2n - i - 1) / 2` distances from the first `i` galaxies. */
  lemma {:induction false} DistancesUpToLength(cs: seq<Coord>, i: nat)
    requires i <= |cs|
    ensures 2 * |DistancesUpTo(cs, i)| == i * (2 * |cs| - i - 1)
  {
    if i > 0 {
      DistancesUpToLength(cs, i - 1);
      var n, prev := |cs|, |DistancesUpTo(cs, i - 1)|;
      assert |DistancesUpTo(cs, i)| == prev + (n - i);
      TriangleStep(n, i, prev);
    }
  }

  /** The arithmetic of one more galaxy's distances. */
  lemma TriangleStep(n: int, i: int, prev: int)
    requires 2 * prev == (i - 1) * (2 * n - i)
    ensures 2 * (prev + (n - i)) == i * (2 * n - i - 1)
  {
    assert (i - 1) * (2 * n - i) == i * (2 * n - i) - (2 * n - i);
    assert i * (2 * n - i - 1) == i * (2 * n - i) - i;
  }

  /** Where the distances from galaxy `i` start. */
  lemma {:induction false} DistancesUpToPrefix(cs: seq<Coord>, i: nat, k: nat)
    requires i <= k <= |cs|
    ensures DistancesUpTo(cs, i) <= DistancesUpTo(cs, k)
    decreases k - i
  {
    if i < k {
      DistancesUpToPrefix(cs, i, k - 1);
    }
  }

  /** The result holds `n (n - 1) / 2` distances, one per pair. */
  lemma DistancesCount(cs: seq<Coord>)
    requires |cs| >= 1
    ensures 2 * |DistancesUpTo(cs, |cs| - 1)| == |cs| * (|cs| - 1)
  {
    DistancesUpToLength(cs, |cs| - 1);
  }

  /** The distance for the pair `i < j` sits after those of the pairs that start before `i`
      and those `(i, j')` with `j' < j`: the order is lexicographic. */
  lemma DistancesPair(cs: seq<Coord>, i: nat, j: nat)
    requires i < j < |cs|
    ensures |DistancesUpTo(cs, i)| + (j - i - 1) < |DistancesUpTo(cs, |cs| - 1)|
    ensures DistancesUpTo(cs, |cs| - 1)[|DistancesUpTo(cs, i)| + (j - i - 1)] == Manhattan(cs[i], cs[j])
  {
    DistancesUpToPrefix(cs, i + 1, |cs| - 1);
    var pre := DistancesUpTo(cs, i + 1);
    assert pre == DistancesUpTo(cs, i) + DistancesFrom(cs, i);
    assert pre[|DistancesUpTo(cs, i)| + (j - i - 1)] == Manhattan(cs[i], cs[j]);
  }

  // ---------------------------------------------------------------------------------------
  // Reading
  // ---------------------------------------------------------------------------------------

  /** The galaxies of line `n` among its first `k` characters, left to right. */
  function LineGalaxies(line: string, n: nat, k: nat): (r: seq<Coord>)
    requires k <= |line|
    ensures forall i :: 0 <= i < |r| ==> r[i].row == n && r[i].col < k && line[r[i].col] == '#'
    ensures forall i, j :: 0 <= i < j < |r| ==> r[i].col < r[j].col
    ensures forall c :: 0 <= c < k && line[c] == '#' ==> Coord(n, c) in r
  {
    if k == 0 then []
    else LineGalaxies(line, n, k - 1) + (if line[k - 1] == '#' then [Coord(n, k - 1)] else [])
  }

  /** The galaxies of the first `n` lines, line by line. */
  function Galaxies(lines: seq<string>, n: nat): seq<Coord>
    requires n <= |lines|
  {
    if n == 0 then [] else Galaxies(lines, n - 1) + LineGalaxies(lines[n - 1], n - 1, |lines[n - 1]|)
  }

  /** `read_map`: every '#' of every line, as (line index, column). */
  method ReadMap(lines: seq<string>) returns (m: SkyMap)
    ensures m.coords == Galaxies(lines, |lines|)
  {
    var coords := [];
    for n := 0 to |lines|
      invariant coords == Galaxies(lines, n)
    {
      var row := lines[n];
      for col := 0 to |row|
        invariant coords == Galaxies(lines, n) + LineGalaxies(row, n, col)
      {
        if row[col] == '#' {
          coords := coords + [Coord(n, col)];
        }
      }
    }
    return SkyMap(coords);
  }

  /** Row-major order: by row, then by column. */
  predicate Before(a: Coord, b: Coord) {
    a.row < b.row || (a.row == b.row && a.col < b.col)
  }

  /** The galaxies are exactly the '#' positions, in strictly increasing row-major order. */
  lemma {:induction false} GalaxiesSpec(lines: seq<string>, n: nat)
    requires n <= |lines|
    ensures forall c :: c in Galaxies(lines, n) <==> c.row < n && c.col < |lines[c.row]| && lines[c.row][c.col] == '#'
    ensures forall i, j :: 0 <= i < j < |Galaxies(lines, n)| ==> Before(Galaxies(lines, n)[i], Galaxies(lines, n)[j])
  {
    if n > 0 {
      GalaxiesSpec(lines, n - 1);
      var pre := Galaxies(lines, n - 1);
      var line := LineGalaxies(lines[n - 1], n - 1, |lines[n - 1]|);
      assert Galaxies(lines, n) == pre + line;
      forall c: Coord | c.row < n && c.col < |lines[c.row]| && lines[c.row][c.col] == '#'
        ensures c in Galaxies(lines, n)
      {
        if c.row == n - 1 {
          assert c == Coord(n - 1, c.col);
        }
      }
    }
  }
}

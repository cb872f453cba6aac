/** Day 3 (day03/src/lib.rs): an engine schematic is read line by line into numbers (runs of
    digits, with the columns they occupy) and symbols (any other character but '.'). A
    number is a part number when a symbol touches one of its digits, even diagonally; a
    '*' touching exactly two part numbers is a gear. */
module Day03 {
  import opened Strings

  datatype Coords = Coords(x: int, y: int)

  datatype SchematicObject =
    | Number(number: nat, coords: seq<Coords>)
    | Symbol(symbol: char, cell: Coords)

  /** The coordinates of the given columns on row `row`. */
  function OnRow(columns: seq<int>, row: int): (r: seq<Coords>)
    ensures |r| == |columns|
    ensures forall j :: 0 <= j < |r| ==> r[j] == Coords(columns[j], row)
  {
    if columns == [] then [] else [Coords(columns[0], row)] + OnRow(columns[1..], row)
  }

  /** `SchematicObject::new`: a run starting with a digit is a Number worth the decimal value
      of the run; anything else is a Symbol at the first column. Both `unwrap` and the
      index at 0 panic on what the requires exclude. */
  function NewObject(members: string, columns: seq<int>, row: int): (r: SchematicObject)
    requires |members| >= 1 && |columns| >= 1
    requires IsDigit(members[0]) ==> AllDigits(members)
    ensures r.Number? <==> IsDigit(members[0])
    ensures r.Number? ==> r.number == DecimalValue(members) && |r.coords| == |columns|
    ensures r.Number? ==> forall j :: 0 <= j < |columns| ==> r.coords[j] == Coords(columns[j], row)
    ensures r.Symbol? ==> r.symbol == members[0] && r.cell == Coords(columns[0], row)
  {
    if IsDigit(members[0]) then Number(DecimalValue(members), OnRow(columns, row))
    else Symbol(members[0], Coords(columns[0], row))
  }

  function Abs(n: int): nat {
    if n < 0 then -n else n
  }

  /** The row of an object: that of a symbol, or of a number's first digit. */
  function Row(o: SchematicObject): int
    requires o.Number? ==> |o.coords| >= 1
  {
    match o
    case Symbol(_, c) => c.y
    case Number(_, cs) => cs[0].y
  }

  /** `neighbors_row`: the object lies on `row` or on a row next to it. */
  predicate NeighborsRow(o: SchematicObject, row: int)
    requires o.Number? ==> |o.coords| >= 1
  {
    Abs(Row(o) - row) < 2
  }

  lemma NeighborsRowMeans(o: SchematicObject, row: int)
    requires o.Number? ==> |o.coords| >= 1
    ensures NeighborsRow(o, row) <==> row - 1 <= Row(o) <= row + 1
  {
  }

  /** One cell touches another: within one row and one column. */
  predicate Touches(c: Coords, d: Coords) {
    Abs(c.y - d.y) < 2 && Abs(c.x - d.x) < 2
  }

  /** Whether any of the cells touches `d`, scanning them in order (`iter().any`). */
  function AnyTouches(cells: seq<Coords>, d: Coords): (r: bool)
    ensures r <==> exists i :: 0 <= i < |cells| && Touches(cells[i], d)
  {
    if cells == [] then false
    else if Touches(cells[0], d) then true
    else
      assert forall i :: 1 <= i < |cells| ==> cells[i] == cells[1..][i - 1];
      AnyTouches(cells[1..], d)
  }

  /** `adjacent_to` of a number and a symbol: some digit of the number touches the symbol. */
  predicate AdjacentTo(num: SchematicObject, sym: SchematicObject)
    requires num.Number? && sym.Symbol?
  {
    AnyTouches(num.coords, sym.cell)
  }

  /** Whether any symbol of the slice is adjacent to the number (`is_part_num`'s scan). */
  function AnySymbolAdjacent(num: SchematicObject, symbols: seq<SchematicObject>): (r: bool)
    requires num.Number?
    ensures r <==> exists i :: 0 <= i < |symbols| && symbols[i].Symbol? && AdjacentTo(num, symbols[i])
  {
    if symbols == [] then false
    else if symbols[0].Symbol? && AdjacentTo(num, symbols[0]) then true
    else
      assert forall i :: 1 <= i < |symbols| ==> symbols[i] == symbols[1..][i - 1];
      AnySymbolAdjacent(num, symbols[1..])
  }

  /** `is_part_num`: a number next to some symbol of the slice; a symbol never is one. */
  function IsPartNum(o: SchematicObject, symbols: seq<SchematicObject>): (r: bool)
    ensures r <==> (o.Number? &&
      exists i :: 0 <= i < |symbols| && symbols[i].Symbol? && exists k :: 0 <= k < |o.coords| && Touches(o.coords[k], symbols[i].cell))
  {
    match o
    case Number(_, _) => AnySymbolAdjacent(o, symbols)
    case Symbol(_, _) => false
  }

  predicate AllNumbers(parts: seq<SchematicObject>) {
    forall i :: 0 <= i < |parts| ==> parts[i].Number?
  }

  /** The numbers of the parts adjacent to the symbol, in order (the `filter`/`map` of
      `gear_ratio`). */
  function AdjacentNumbers(parts: seq<SchematicObject>, sym: SchematicObject): (r: seq<nat>)
    requires AllNumbers(parts) && sym.Symbol?
    ensures |r| <= |parts|
  {
    if parts == [] then []
    else
      var rest := AdjacentNumbers(parts[1..], sym);
      if AdjacentTo(parts[0], sym) then [parts[0].number] + rest else rest
  }

  /** How many parts are adjacent to the symbol (the `filter(..).count()` of `is_gear`). */
  function CountAdjacent(parts: seq<SchematicObject>, sym: SchematicObject): nat
    requires AllNumbers(parts) && sym.Symbol?
  {
    if parts == [] then 0
    else (if AdjacentTo(parts[0], sym) then 1 else 0) + CountAdjacent(parts[1..], sym)
  }

  lemma {:induction false} CountIsAdjacentNumbers(parts: seq<SchematicObject>, sym: SchematicObject)
    requires AllNumbers(parts) && sym.Symbol?
    ensures CountAdjacent(parts, sym) == |AdjacentNumbers(parts, sym)|
    decreases |parts|
  {
    if parts != [] {
      CountIsAdjacentNumbers(parts[1..], sym);
    }
  }

  /** Every number listed belongs to a part adjacent to the symbol, and every adjacent part
      is listed. */
  lemma {:induction false} AdjacentNumbersExact(parts: seq<SchematicObject>, sym: SchematicObject, n: nat)
    requires AllNumbers(parts) && sym.Symbol?
    ensures n in AdjacentNumbers(parts, sym) <==>
      exists i :: 0 <= i < |parts| && AdjacentTo(parts[i], sym) && parts[i].number == n
    decreases |parts|
  {
    if parts != [] {
      AdjacentNumbersExact(parts[1..], sym, n);
      if exists i :: 0 <= i < |parts| && AdjacentTo(parts[i], sym) && parts[i].number == n {
        var i :| 0 <= i < |parts| && AdjacentTo(parts[i], sym) && parts[i].number == n;
        if i > 0 {
          assert parts[1..][i - 1] == parts[i];
        }
      }
      if exists i :: 0 <= i < |parts[1..]| && AdjacentTo(parts[1..][i], sym) && parts[1..][i].number == n {
        var i :| 0 <= i < |parts[1..]| && AdjacentTo(parts[1..][i], sym) && parts[1..][i].number == n;
        assert parts[i + 1] == parts[1..][i];
      }
    }
  }

  /** `is_gear`: a '*' with exactly two adjacent parts. Any other symbol is answered without
      looking at the parts; for a '*', `adjacent_to` panics when a part is not a number. */
  predicate IsGear(sym: SchematicObject, parts: seq<SchematicObject>)
    requires sym.Symbol? && (sym.symbol == '*' ==> AllNumbers(parts))
  {
    sym.symbol == '*' && CountAdjacent(parts, sym) == 2
  }

  /** `gear_ratio`: the product of the first two adjacent parts' numbers. Indexing panics when
      fewer than two are adjacent. */
  function GearRatio(sym: SchematicObject, parts: seq<SchematicObject>): nat
    requires sym.Symbol? && AllNumbers(parts) && |AdjacentNumbers(parts, sym)| >= 2
  {
    var values := AdjacentNumbers(parts, sym);
    values[0] * values[1]
  }

  /** On a gear `gear_ratio` never panics, and it multiplies the numbers of the gear's only
      two adjacent parts. */
  lemma GearRatioOfGear(sym: SchematicObject, parts: seq<SchematicObject>)
    requires sym.Symbol? && AllNumbers(parts) && IsGear(sym, parts)
    ensures |AdjacentNumbers(parts, sym)| == 2
    ensures AdjacentNumbers(parts, sym) == [AdjacentNumbers(parts, sym)[0], AdjacentNumbers(parts, sym)[1]]
    ensures GearRatio(sym, parts) == AdjacentNumbers(parts, sym)[0] * AdjacentNumbers(parts, sym)[1]
    ensures forall k :: 0 <= k < 2 ==>
      exists i :: 0 <= i < |parts| && AdjacentTo(parts[i], sym) && parts[i].number == AdjacentNumbers(parts, sym)[k]
  {
    CountIsAdjacentNumbers(parts, sym);
    var values := AdjacentNumbers(parts, sym);
    forall k | 0 <= k < 2
      ensures exists i :: 0 <= i < |parts| && AdjacentTo(parts[i], sym) && parts[i].number == values[k]
    {
      AdjacentNumbersExact(parts, sym, values[k]);
    }
  }

  // ---------------------------------------------------------------------------
  // Reading a line

  /** Length of the run of digits starting at column k. */
  function DigitRun(line: string, k: nat): (n: nat)
    requires k <= |line|
    ensures k + n <= |line|
    ensures forall j :: k <= j < k + n ==> IsDigit(line[j])
    ensures k + n < |line| ==> !IsDigit(line[k + n])
    decreases |line| - k
  {
    if k < |line| && IsDigit(line[k]) then 1 + DigitRun(line, k + 1) else 0
  }

  /** The columns from `start` up to (not including) `end`. */
  function Columns(start: int, end: int): (r: seq<int>)
    ensures |r| == if start <= end then end - start else 0
    decreases end - start
  {
    if end <= start then [] else Columns(start, end - 1) + [end - 1]
  }

  /** The objects of a line from column k on, one maximal run of digits or one other
      character at a time: '.' is skipped, a run of digits is a Number, any other character
      is a Symbol. */
  function Objects(line: string, k: nat, row: int): seq<SchematicObject>
    requires k <= |line|
    decreases |line| - k
  {
    if k == |line| then []
    else if line[k] == '.' then Objects(line, k + 1, row)
    else if IsDigit(line[k]) then
      var n := DigitRun(line, k);
      [NewObject(line[k..k + n], Columns(k, k + n), row)] + Objects(line, k + n, row)
    else [NewObject([line[k]], [k], row)] + Objects(line, k + 1, row)
  }

  /** A run of digits that ends at column i is exactly the run `DigitRun` measures. */
  lemma {:induction false} RunEnds(line: string, start: nat, i: nat)
    requires start <= i <= |line|
    requires forall j :: start <= j < i ==> IsDigit(line[j])
    requires i == |line| || !IsDigit(line[i])
    ensures DigitRun(line, start) == i - start
    decreases i - start
  {
    if start < i {
      RunEnds(line, start + 1, i);
    }
  }

  /** A run of digits from `start` that ends at column i is one Number. */
  lemma ObjectsAtRun(line: string, start: nat, i: nat, row: int)
    requires start < i <= |line|
    requires AllDigits(line[start..i])
    requires i == |line| || !IsDigit(line[i])
    ensures Objects(line, start, row) == [NewObject(line[start..i], Columns(start, i), row)] + Objects(line, i, row)
  {
    forall j | start <= j < i
      ensures IsDigit(line[j])
    {
      assert line[j] == line[start..i][j - start];
    }
    RunEnds(line, start, i);
  }

  /** A character that is not a digit is skipped ('.') or is one Symbol. */
  lemma ObjectsAtOther(line: string, k: nat, row: int)
    requires k < |line| && !IsDigit(line[k])
    ensures Objects(line, k, row) ==
      (if line[k] == '.' then [] else [NewObject([line[k]], [k], row)]) + Objects(line, k + 1, row)
  {
  }

  /** The digits collected so far are those of columns `start` up to `col`. */
  ghost predicate Pending(line: string, start: nat, col: nat, members: string, columns: seq<int>) {
    start <= col <= |line| && members == line[start..col] && AllDigits(members) && columns == Columns(start, col)
  }

  lemma PendingDigit(line: string, start: nat, col: nat, members: string, columns: seq<int>)
    requires Pending(line, start, col, members, columns) && col < |line| && IsDigit(line[col])
    ensures Pending(line, start, col + 1, members + [line[col]], columns + [col])
  {
    assert line[start..col + 1] == line[start..col] + [line[col]];
  }

  /** The objects emitted so far, followed by those from `start` on, are all the line's. */
  ghost predicate Emitted(line: string, row: int, result: seq<SchematicObject>, start: nat)
    requires start <= |line|
  {
    result + Objects(line, start, row) == Objects(line, 0, row)
  }

  /** What a non-digit at `col` emits: the pending number, if any, then the symbol unless
      the character is '.'. */
  function Flush(members: string, columns: seq<int>, row: int): seq<SchematicObject>
    requires |members| >= 1 ==> |columns| >= 1 && AllDigits(members)
  {
    if |members| > 0 then [NewObject(members, columns, row)] else []
  }

  /** The pending digits, if any, are the Number the objects from `start` begin with. */
  lemma FlushStep(line: string, row: int, start: nat, col: nat, members: string, columns: seq<int>)
    requires Pending(line, start, col, members, columns) && (col == |line| || !IsDigit(line[col]))
    ensures Objects(line, start, row) == Flush(members, columns, row) + Objects(line, col, row)
  {
    if |members| > 0 {
      ObjectsAtRun(line, start, col, row);
    }
  }

  lemma NonDigitStep(line: string, row: int, result: seq<SchematicObject>, start: nat, col: nat,
                     members: string, columns: seq<int>)
    requires Pending(line, start, col, members, columns) && col < |line| && !IsDigit(line[col])
    requires Emitted(line, row, result, start)
    ensures Emitted(line, row, result + Flush(members, columns, row)
      + (if line[col] == '.' then [] else [NewObject([line[col]], [col], row)]), col + 1)
  {
    var flushed := Flush(members, columns, row);
    FlushStep(line, row, start, col, members, columns);
    ObjectsAtOther(line, col, row);
    var symbol := if line[col] == '.' then [] else [NewObject([line[col]], [col], row)];
    ConcatAssociative(result + flushed, symbol, Objects(line, col + 1, row));
    ConcatAssociative(result, flushed, Objects(line, col, row));
  }

  /** Appending the symbol only when there is one is appending its optional singleton. */
  lemma EmitSymbol(flushed: seq<SchematicObject>, dot: bool, symbol: SchematicObject, emitted: seq<SchematicObject>)
    requires emitted == if dot then flushed else flushed + [symbol]
    ensures emitted == flushed + (if dot then [] else [symbol])
  {
    if dot {
      assert flushed + [] == flushed;
    }
  }

  /** The step of `ParseLine` at a non-digit, for what it appends. */
  lemma NonDigitEmit(line: string, row: int, result: seq<SchematicObject>, start: nat, col: nat,
                     members: string, columns: seq<int>, emitted: seq<SchematicObject>)
    requires Pending(line, start, col, members, columns) && col < |line| && !IsDigit(line[col])
    requires Emitted(line, row, result, start)
    requires emitted == if line[col] == '.' then Flush(members, columns, row)
      else Flush(members, columns, row) + [NewObject([line[col]], [col], row)]
    ensures Emitted(line, row, result + emitted, col + 1)
  {
    NonDigitStep(line, row, result, start, col, members, columns);
    var symbol := NewObject([line[col]], [col], row);
    EmitSymbol(Flush(members, columns, row), line[col] == '.', symbol, emitted);
    ConcatAssociative(result, Flush(members, columns, row), if line[col] == '.' then [] else [symbol]);
  }

  /** Nothing is pending right after a non-digit. */
  lemma PendingNone(line: string, k: nat)
    requires k <= |line|
    ensures Pending(line, k, k, [], [])
  {
  }

  lemma EndStep(line: string, row: int, result: seq<SchematicObject>, start: nat,
                members: string, columns: seq<int>)
    requires Pending(line, start, |line|, members, columns)
    requires Emitted(line, row, result, start)
    ensures result + Flush(members, columns, row) == Objects(line, 0, row)
  {
    FlushStep(line, row, start, |line|, members, columns);
  }

  /** `parse_line`: walk the characters, collecting digits and their columns in `members` and
      `columns` and emitting the pending number at every non-digit and at the end. */
  method ParseLine(line: string, row: int) returns (result: seq<SchematicObject>)
    ensures result == Objects(line, 0, row)
  {
    result := [];
    var members: string := [];
    var columns: seq<int> := [];
    ghost var start := 0;
    for col := 0 to |line|
      invariant Pending(line, start, col, members, columns)
      invariant Emitted(line, row, result, start)
    {
      var ch := line[col];
      if IsDigit(ch) {
        PendingDigit(line, start, col, members, columns);
        members := members + [ch];
        columns := columns + [col];
      } else {
        var emitted := Flush(members, columns, row);
        if ch != '.' {
          emitted := emitted + [NewObject([ch], [col], row)];
        }
        NonDigitEmit(line, row, result, start, col, members, columns, emitted);
        result := result + emitted;
        members := [];
        columns := [];
        PendingNone(line, col + 1);
        start := col + 1;
      }
    }
    EndStep(line, row, result, start, members, columns);
    result := result + Flush(members, columns, row);
  }

  lemma DecimalThree(s: string)
    requires |s| == 3 && AllDigits(s)
    ensures DecimalValue(s) == DigitValue(s[0]) * 100 + DigitValue(s[1]) * 10 + DigitValue(s[2])
  {
    assert s[..2][..1] == s[..1];
    assert s[..1][..0] == [];
    assert DecimalValue(s[..1]) == DigitValue(s[0]);
    assert DecimalValue(s[..2]) == DigitValue(s[0]) * 10 + DigitValue(s[1]);
    assert s[..3] == s;
  }

  /** A three-digit run with its three columns. */
  lemma NumberAt(s: string, k: int, row: int)
    requires |s| == 3 && AllDigits(s)
    ensures NewObject(s, [k, k + 1, k + 2], row) ==
      Number(DigitValue(s[0]) * 100 + DigitValue(s[1]) * 10 + DigitValue(s[2]),
             [Coords(k, row), Coords(k + 1, row), Coords(k + 2, row)])
  {
    DecimalThree(s);
    var r := NewObject(s, [k, k + 1, k + 2], row);
    assert r.coords == [Coords(k, row), Coords(k + 1, row), Coords(k + 2, row)];
  }

  /** The numbers of the source's tests. */
  lemma ExampleNumbers()
    ensures NewObject("467", [0, 1, 2], 0) == Number(467, [Coords(0, 0), Coords(1, 0), Coords(2, 0)])
    ensures NewObject("114", [5, 6, 7], 0) == Number(114, [Coords(5, 0), Coords(6, 0), Coords(7, 0)])
    ensures NewObject("617", [7, 8, 9], 4) == Number(617, [Coords(7, 4), Coords(8, 4), Coords(9, 4)])
  {
    NumberAt("467", 0, 0);
    NumberAt("114", 5, 0);
    NumberAt("617", 7, 4);
  }

  /** Dots add no object. */
  lemma {:induction false} SkipDots(line: string, k: nat, j: nat, row: int)
    requires k <= j <= |line| && forall i :: k <= i < j ==> line[i] == '.'
    ensures Objects(line, k, row) == Objects(line, j, row)
    decreases j - k
  {
    if k < j {
      SkipDots(line, k + 1, j, row);
    }
  }

  lemma ExampleSecondRun(line: string)
    requires line == "467..114.."
    ensures Objects(line, 5, 0) == [Number(114, [Coords(5, 0), Coords(6, 0), Coords(7, 0)])]
  {
    ObjectsAtRun(line, 5, 8, 0);
    assert line[5..8] == "114" && Columns(5, 8) == [5, 6, 7];
    SkipDots(line, 8, 10, 0);
    ExampleNumbers();
  }

  lemma ExampleSecondNumber(line: string)
    requires line == "467..114.."
    ensures Objects(line, 3, 0) == [Number(114, [Coords(5, 0), Coords(6, 0), Coords(7, 0)])]
  {
    SkipDots(line, 3, 5, 0);
    ExampleSecondRun(line);
  }

  lemma ExampleFirstNumber(line: string)
    requires line == "467..114.."
    ensures Objects(line, 0, 0) == [Number(467, [Coords(0, 0), Coords(1, 0), Coords(2, 0)])] + Objects(line, 3, 0)
  {
    ObjectsAtRun(line, 0, 3, 0);
    assert line[0..3] == "467" && Columns(0, 3) == [0, 1, 2];
    ExampleNumbers();
  }

  /** The examples of the source's tests. */
  lemma ParseExampleNumbers(line: string)
    requires line == "467..114.."
    ensures Objects(line, 0, 0) ==
      [Number(467, [Coords(0, 0), Coords(1, 0), Coords(2, 0)]), Number(114, [Coords(5, 0), Coords(6, 0), Coords(7, 0)])]
  {
    ExampleFirstNumber(line);
    ExampleSecondNumber(line);
  }

  lemma ParseExampleSymbol(line: string)
    requires line == "...*......"
    ensures Objects(line, 0, 1) == [Symbol('*', Coords(3, 1))]
  {
    SkipDots(line, 0, 3, 1);
    ObjectsAtOther(line, 3, 1);
    SkipDots(line, 4, 10, 1);
  }

  lemma ExampleTail(line: string)
    requires line == "......*617"
    ensures Objects(line, 7, 4) == [Number(617, [Coords(7, 4), Coords(8, 4), Coords(9, 4)])]
  {
    ObjectsAtRun(line, 7, 10, 4);
    assert line[7..10] == "617" && Columns(7, 10) == [7, 8, 9];
    ExampleNumbers();
  }

  lemma ParseExampleBoth(line: string)
    requires line == "......*617"
    ensures Objects(line, 0, 4) ==
      [Symbol('*', Coords(6, 4)), Number(617, [Coords(7, 4), Coords(8, 4), Coords(9, 4)])]
  {
    SkipDots(line, 0, 6, 4);
    ObjectsAtOther(line, 6, 4);
    ExampleTail(line);
  }

  lemma IsPartExample()
    ensures var symbols := [Symbol('*', Coords(3, 1)), Symbol('*', Coords(6, 4))];
      && IsPartNum(Number(617, [Coords(7, 4), Coords(8, 4), Coords(9, 4)]), symbols)
      && !IsPartNum(Number(58, [Coords(8, 5), Coords(9, 5)]), symbols)
  {
  }
}

/** Day 5: the almanac of seed-to-soil, soil-to-fertilizer, ... maps. Each map is a list
    of ranges that shift source values to destination values; values no range covers map
    to themselves. The input is read line by line from a stream. */
module Day05 {
  import opened Wrappers
  import opened Strings

  /** One range of a map: `length` source values from `sourceStart` go to the values
      from `destStart` on. The fields are in the order the derived ordering compares them. */
  datatype Mapping = Mapping(destStart: nat, sourceStart: nat, length: nat)

  predicate Covers(m: Mapping, v: nat) {
    m.sourceStart <= v < m.sourceStart + m.length
  }

  /** `Mapping::map`: the shifted value when the range covers `v`. */
  function Translate(m: Mapping, v: nat): (r: Option<nat>)
    ensures r.Some? <==> Covers(m, v)
    ensures r.Some? ==> m.destStart <= r.value < m.destStart + m.length
  {
    if Covers(m, v) then Some(m.destStart + (v - m.sourceStart)) else None
  }

  /** A range moves all the values it covers by the same offset, so it is one-to-one... */
  lemma TranslateKeepsDistances(m: Mapping, v1: nat, v2: nat)
    requires Covers(m, v1) && Covers(m, v2)
    ensures Translate(m, v1).value - Translate(m, v2).value == v1 - v2
  {
  }

  /** ... and every destination value of the range is reached. */
  lemma TranslateOnto(m: Mapping, d: nat)
    requires m.destStart <= d < m.destStart + m.length
    ensures Translate(m, d - m.destStart + m.sourceStart) == Some(d)
  {
  }

  /** The derived `Ord` of `Mapping`: lexicographic in field order. */
  predicate Le(a: Mapping, b: Mapping) {
    a.destStart < b.destStart ||
    (a.destStart == b.destStart &&
      (a.sourceStart < b.sourceStart || (a.sourceStart == b.sourceStart && a.length <= b.length)))
  }

  lemma LeIsTotalOrder(a: Mapping, b: Mapping, c: Mapping)
    ensures Le(a, b) || Le(b, a)
    ensures Le(a, b) && Le(b, a) ==> a == b
    ensures Le(a, b) && Le(b, c) ==> Le(a, c)
  {
  }

  predicate Sorted(ms: seq<Mapping>) {
    forall i, j :: 0 <= i < j < |ms| ==> Le(ms[i], ms[j])
  }

  lemma SortedCons(h: Mapping, t: seq<Mapping>)
    requires Sorted(t)
    requires forall k :: 0 <= k < |t| ==> Le(h, t[k])
    ensures Sorted([h] + t)
  {
    var s := [h] + t;
    forall i, j | 0 <= i < j < |s| ensures Le(s[i], s[j]) {
      assert s[j] == t[j - 1];
      if i > 0 {
        assert s[i] == t[i - 1];
      }
    }
  }

  function Insert(m: Mapping, ms: seq<Mapping>): seq<Mapping>
    decreases |ms|
  {
    if ms == [] then [m]
    else if Le(m, ms[0]) then [m] + ms
    else [ms[0]] + Insert(m, ms[1..])
  }

  /** Inserting into a sorted sequence keeps it sorted and adds exactly the new range. */
  lemma {:induction false} InsertSorts(m: Mapping, ms: seq<Mapping>)
    requires Sorted(ms)
    ensures Sorted(Insert(m, ms)) && multiset(Insert(m, ms)) == multiset(ms) + multiset{m}
    decreases |ms|
  {
    if ms == [] {
    } else if Le(m, ms[0]) {
      forall k | 0 <= k < |ms| ensures Le(m, ms[k]) {
        LeIsTotalOrder(m, ms[0], ms[k]);
      }
      SortedCons(m, ms);
    } else {
      assert ms == [ms[0]] + ms[1..];
      InsertSorts(m, ms[1..]);
      var t := Insert(m, ms[1..]);
      forall k | 0 <= k < |t| ensures Le(ms[0], t[k]) {
        assert t[k] in multiset(t);
        if t[k] != m {
          assert t[k] in multiset(ms[1..]);
          var j :| 0 <= j < |ms[1..]| && ms[1..][j] == t[k];
          assert ms[j + 1] == t[k];
        } else {
          LeIsTotalOrder(m, ms[0], m);
        }
      }
      SortedCons(ms[0], t);
    }
  }

  /** `Vec::sort` on mappings, as an insertion sort. */
  function SortMappings(ms: seq<Mapping>): seq<Mapping>
    decreases |ms|
  {
    if ms == [] then [] else Insert(ms[0], SortMappings(ms[1..]))
  }

  /** The sort orders the ranges and keeps exactly the same ones. */
  lemma {:induction false} SortMappingsSorts(ms: seq<Mapping>)
    ensures Sorted(SortMappings(ms)) && multiset(SortMappings(ms)) == multiset(ms)
    decreases |ms|
  {
    if ms != [] {
      SortMappingsSorts(ms[1..]);
      InsertSorts(ms[0], SortMappings(ms[1..]));
      SplitFirst(ms);
      assert multiset(ms) == multiset([ms[0]]) + multiset(ms[1..]);
    }
  }

  /** There is only one sorted arrangement of a collection of mappings, so the sort above
      gives what any correct sort gives. */
  lemma {:induction false} SortedUnique(a: seq<Mapping>, b: seq<Mapping>)
    requires Sorted(a) && Sorted(b) && multiset(a) == multiset(b)
    ensures a == b
    decreases |a|
  {
    if a == [] {
      assert |b| == |multiset(b)| == 0;
    } else {
      assert |b| == |multiset(b)| == |a|;
      SortedHeads(a, b);
      SameTails(a, b);
      SortedTail(a);
      SortedTail(b);
      SortedUnique(a[1..], b[1..]);
      SplitFirst(a);
      SplitFirst(b);
    }
  }

  /** Two sorted arrangements of the same mappings start with the same one. */
  lemma SortedHeads(a: seq<Mapping>, b: seq<Mapping>)
    requires Sorted(a) && Sorted(b) && multiset(a) == multiset(b) && a != [] && b != []
    ensures a[0] == b[0]
  {
    assert a[0] in multiset(b);
    var j :| 0 <= j < |b| && b[j] == a[0];
    assert b[0] in multiset(a);
    var i :| 0 <= i < |a| && a[i] == b[0];
    assert Le(b[0], a[0]) by {
      if j > 0 {
        assert Le(b[0], b[j]);
      }
    }
    assert Le(a[0], b[0]) by {
      if i > 0 {
        assert Le(a[0], a[i]);
      }
    }
    LeIsTotalOrder(a[0], b[0], a[0]);
  }

  lemma SameTails(a: seq<Mapping>, b: seq<Mapping>)
    requires a != [] && b != [] && a[0] == b[0] && multiset(a) == multiset(b)
    ensures multiset(a[1..]) == multiset(b[1..])
  {
    SplitFirst(a);
    SplitFirst(b);
    assert multiset(a[1..]) == multiset(a) - multiset{a[0]};
    assert multiset(b[1..]) == multiset(b) - multiset{b[0]};
  }

  lemma SortedTail(a: seq<Mapping>)
    requires Sorted(a) && a != []
    ensures Sorted(a[1..])
  {
    forall i, j | 0 <= i < j < |a| - 1 ensures Le(a[1..][i], a[1..][j]) {
      assert a[1..][i] == a[i + 1] && a[1..][j] == a[j + 1];
    }
  }

  /** A map of the almanac: its name and its ranges. */
  datatype Map = Map(source: string, destination: string, mappings: seq<Mapping>)

  /** `Map::new`: the ranges are kept sorted. */
  function NewMap(source: string, destination: string, mappings: seq<Mapping>): Map {
    Map(source, destination, SortMappings(mappings))
  }

  /** The new map has the given names and holds the given ranges, in order. */
  lemma NewMapSortsRanges(source: string, destination: string, mappings: seq<Mapping>)
    ensures NewMap(source, destination, mappings).source == source
    ensures NewMap(source, destination, mappings).destination == destination
    ensures Sorted(NewMap(source, destination, mappings).mappings)
    ensures multiset(NewMap(source, destination, mappings).mappings) == multiset(mappings)
  {
    SortMappingsSorts(mappings);
  }

  /** Building a map from ranges already in order keeps them as they are. */
  lemma NewMapSorted(source: string, destination: string, mappings: seq<Mapping>)
    requires Sorted(mappings)
    ensures NewMap(source, destination, mappings) == Map(source, destination, mappings)
  {
    SortMappingsSorts(mappings);
    SortedUnique(SortMappings(mappings), mappings);
  }

  /** What `Map::map_value` computes: the value shifted by the first range that covers it,
      or the value itself. */
  function Apply(ms: seq<Mapping>, v: nat): nat
    decreases |ms|
  {
    if ms == [] then v
    else if Covers(ms[0], v) then Translate(ms[0], v).value
    else Apply(ms[1..], v)
  }

  /** `Map::map_value`. */
  method MapValue(m: Map, v: nat) returns (r: nat)
    ensures r == Apply(m.mappings, v)
  {
    var ms := m.mappings;
    for k := 0 to |ms|
      invariant Apply(ms[k..], v) == Apply(ms, v)
    {
      assert ms[k..][1..] == ms[k + 1..];
      var shifted := Translate(ms[k], v);
      if shifted.Some? {
        return shifted.value;
      }
    }
    return v;
  }

  lemma {:induction false} ApplyFirstCover(ms: seq<Mapping>, v: nat, i: nat)
    requires i < |ms| && Covers(ms[i], v)
    requires forall j :: 0 <= j < i ==> !Covers(ms[j], v)
    ensures Translate(ms[i], v) == Some(Apply(ms, v))
    decreases i
  {
    if i > 0 {
      assert forall j :: 0 <= j < i - 1 ==> ms[1..][j] == ms[j + 1];
      ApplyFirstCover(ms[1..], v, i - 1);
    }
  }

  lemma {:induction false} ApplyUncovered(ms: seq<Mapping>, v: nat)
    requires forall i :: 0 <= i < |ms| ==> !Covers(ms[i], v)
    ensures Apply(ms, v) == v
    decreases |ms|
  {
    if ms != [] {
      assert forall i :: 0 <= i < |ms| - 1 ==> ms[1..][i] == ms[i + 1];
      ApplyUncovered(ms[1..], v);
    }
  }

  /** No two ranges of the map overlap on the source side. */
  predicate DisjointSources(ms: seq<Mapping>) {
    forall i, j :: 0 <= i < j < |ms| ==>
      ms[i].sourceStart + ms[i].length <= ms[j].sourceStart ||
      ms[j].sourceStart + ms[j].length <= ms[i].sourceStart
  }

  /** With disjoint sources, the range that covers a value is the one that shifts it. */
  lemma ApplyDisjoint(ms: seq<Mapping>, v: nat, i: nat)
    requires DisjointSources(ms) && i < |ms| && Covers(ms[i], v)
    ensures Translate(ms[i], v) == Some(Apply(ms, v))
  {
    forall j | 0 <= j < i ensures !Covers(ms[j], v) {
    }
    ApplyFirstCover(ms, v, i);
  }

  /** With disjoint sources the order of the ranges does not matter, so sorting them in
      `Map::new` leaves `map_value` unchanged. */
  lemma ApplyPermutation(a: seq<Mapping>, b: seq<Mapping>, v: nat)
    requires DisjointSources(a) && DisjointSources(b) && multiset(a) == multiset(b)
    ensures Apply(a, v) == Apply(b, v)
  {
    if i :| 0 <= i < |a| && Covers(a[i], v) {
      assert a[i] in multiset(b);
      var j :| 0 <= j < |b| && b[j] == a[i];
      ApplyDisjoint(a, v, i);
      ApplyDisjoint(b, v, j);
    } else {
      ApplyUncovered(a, v);
      forall j | 0 <= j < |b| ensures !Covers(b[j], v) {
        assert b[j] in multiset(a);
      }
      ApplyUncovered(b, v);
    }
  }

  /** The example's seed-to-soil map: seeds 79, 14, 55 and 13 go to soils 81, 14, 57, 13. */
  lemma ApplyExample()
    ensures var ms := NewMap("seed", "soil", [Mapping(50, 98, 2), Mapping(52, 50, 48)]).mappings;
      Apply(ms, 79) == 81 && Apply(ms, 14) == 14 && Apply(ms, 55) == 57 && Apply(ms, 13) == 13
  {
    var ms := [Mapping(50, 98, 2), Mapping(52, 50, 48)];
    assert Sorted(ms);
    NewMapSorted("seed", "soil", ms);
  }

  // Reading. The stream is the sequence of its lines (without their newlines) and a
  // position in it; `read_line` appends the next line and its newline to the buffer, or
  // nothing at the end of the input. A panic of `unwrap()` or of an index is `None`
  // (or `Panic`).

  function ReadLine(lines: seq<string>, pos: nat): string {
    if pos < |lines| then lines[pos] + "\n" else ""
  }

  function Advance(lines: seq<string>, pos: nat): nat {
    if pos < |lines| then pos + 1 else pos
  }

  /** `read_seed_numbers`: the numbers after `": "` on the first line, then one more line
      skipped. Returns the numbers and the position after. */
  function ReadSeedNumbers(lines: seq<string>, pos: nat): Option<(seq<nat>, nat)> {
    match SplitOnce(ReadLine(lines, pos), ": ")
    case None => None
    case Some((_, numbers)) =>
      match ParseNats(SplitWhitespace(numbers))
      case None => None
      case Some(seeds) => Some((seeds, Advance(lines, Advance(lines, pos))))
  }

  /** One line of a map's body: blank (the end of the map), a range, or a line that
      makes `Map::read` panic. */
  datatype RangeLine = Blank | Malformed | Range(range: Mapping)

  /** A line of the loop of `Map::read`: it needs at least three numbers and any further
      ones are ignored. */
  function ParseRangeLine(buf: string): RangeLine {
    if |Trim(buf)| == 0 then Blank
    else
      match ParseNats(SplitWhitespace(buf))
      case None => Malformed
      case Some(ns) => if |ns| < 3 then Malformed else Range(Mapping(ns[0], ns[1], ns[2]))
  }

  /** Every line of the input as the loop of `Map::read` sees it. */
  function LineKinds(lines: seq<string>): (r: seq<RangeLine>)
    ensures |r| == |lines|
  {
    seq(|lines|, i requires 0 <= i < |lines| => ParseRangeLine(lines[i] + "\n"))
  }

  /** The loop of `Map::read` over the classified lines: ranges up to a blank line or the
      end of the input (where `read_line` leaves the buffer empty, so its trim is empty
      too). Returns the ranges and the position after the blank line. */
  function CollectRanges(kinds: seq<RangeLine>, pos: nat): (r: Option<(seq<Mapping>, nat)>)
    ensures r.Some? ==> pos <= r.value.1
    decreases |kinds| - pos
  {
    if |kinds| <= pos then Some(([], pos))
    else
      match kinds[pos]
      case Blank => Some(([], pos + 1))
      case Malformed => None
      case Range(m) =>
        match CollectRanges(kinds, pos + 1)
        case None => None
        case Some((rest, next)) => Some(([m] + rest, next))
  }

  /** The loop of `Map::read`, from line `pos` on. */
  function ReadMappings(lines: seq<string>, pos: nat): (r: Option<(seq<Mapping>, nat)>)
    ensures r.Some? ==> pos <= r.value.1
  {
    CollectRanges(LineKinds(lines), pos)
  }

  /** At the end of the input the loop stops at once, as on a blank line. */
  lemma ReadMappingsAtEnd(lines: seq<string>, pos: nat)
    ensures ParseRangeLine(ReadLine(lines, pos)) == Blank <==> ReadMappings(lines, pos) == Some(([], Advance(lines, pos)))
  {
    if |lines| <= pos {
      TrimEmpty("");
    }
  }

  /** The outcome of `Map::read`: the end of the input (`Ok(None)`), a panic, or a map and
      the position after it. */
  datatype MapRead = Eof | Panic | Got(read: Map, next: nat)

  /** The names in a header `<source>-to-<destination> map:`: the text before the first
      space, split at the first `-to-`. */
  function ParseHeader(buf: string): Option<(string, string)> {
    match SplitOnceAt(buf, ' ')
    case None => None
    case Some((name, _)) => SplitOnce(name, "-to-")
  }

  /** Every line of the input read as a header. */
  function Headers(lines: seq<string>): (r: seq<Option<(string, string)>>)
    ensures |r| == |lines|
    decreases |lines|
  {
    if lines == [] then [] else [ParseHeader(lines[0] + "\n")] + Headers(lines[1..])
  }

  lemma {:induction false} HeadersAt(lines: seq<string>, i: nat)
    requires i < |lines|
    ensures Headers(lines)[i] == ParseHeader(lines[i] + "\n")
    decreases i
  {
    if i > 0 {
      HeadersAt(lines[1..], i - 1);
    }
  }

  /** `Map::read`: the header, then the ranges. Only the end of the input leaves the
      buffer empty, since every line read keeps its newline. */
  function ReadMap(lines: seq<string>, pos: nat): (r: MapRead)
    ensures r.Got? ==> pos < r.next
  {
    if |ReadLine(lines, pos)| == 0 then Eof
    else
      var header := Headers(lines)[pos];
      var ranges := ReadMappings(lines, pos + 1);
      if header.None? || ranges.None? then Panic
      else Got(NewMap(header.value.0, header.value.1, ranges.value.0), ranges.value.1)
  }

  /** The loop of `read_data`: maps until the end of the input. */
  function ReadMaps(lines: seq<string>, pos: nat): Option<seq<Map>>
    decreases |lines| - pos
  {
    match ReadMap(lines, pos)
    case Eof => Some([])
    case Panic => None
    case Got(m, next) =>
      match ReadMaps(lines, next)
      case None => None
      case Some(rest) => Some([m] + rest)
  }

  /** `read_data`: the seeds, then the maps. */
  function ReadData(lines: seq<string>): Option<(seq<nat>, seq<Map>)> {
    match ReadSeedNumbers(lines, 0)
    case None => None
    case Some((seeds, pos)) =>
      match ReadMaps(lines, pos)
      case None => None
      case Some(maps) => Some((seeds, maps))
  }

  // Writing an almanac, to state what reading recovers.

  function MappingLine(m: Mapping): string {
    Join(NatTexts([m.destStart, m.sourceStart, m.length]), " ")
  }

  function MappingLines(ms: seq<Mapping>): seq<string> {
    seq(|ms|, k requires 0 <= k < |ms| => MappingLine(ms[k]))
  }

  function Header(m: Map): string {
    m.source + "-to-" + m.destination + " map:"
  }

  /** A map as written in the input: header, ranges and a blank line. */
  function MapLines(m: Map): seq<string> {
    [Header(m)] + MappingLines(m.mappings) + [""]
  }

  function MapsLines(maps: seq<Map>): seq<string>
    decreases |maps|
  {
    if maps == [] then [] else MapLines(maps[0]) + MapsLines(maps[1..])
  }

  function SeedLine(seeds: seq<nat>): string {
    "seeds: " + Join(NatTexts(seeds), " ")
  }

  /** The whole input: the seed line, a blank line and the maps. */
  function Almanac(seeds: seq<nat>, maps: seq<Map>): seq<string> {
    [SeedLine(seeds), ""] + MapsLines(maps)
  }

  /** A map that can be written and read back: names the header splits apart again,
      ranges in the order `Map::new` puts them. */
  predicate WellFormed(m: Map) {
    ' ' !in m.source && ' ' !in m.destination && '-' !in m.source && Sorted(m.mappings)
  }

  lemma MappingLineReads(m: Mapping)
    ensures ParseRangeLine(MappingLine(m) + "\n") == Range(m)
  {
    var ns := [m.destStart, m.sourceStart, m.length];
    var line := MappingLine(m);
    SplitWhitespaceTrailing(line, '\n');
    SplitNatTexts(ns);
    ParseNatTexts(ns);
    assert line == NatText(m.destStart) + " " + Join(NatTexts(ns)[1..], " ");
    assert !IsWhitespace((line + "\n")[0]);
    TrimEmpty(line + "\n");
  }

  /** The lines from `pos` on read as the ranges `ms` and then a blank line. */
  predicate ReadsAsRanges(kinds: seq<RangeLine>, pos: nat, ms: seq<Mapping>) {
    pos + |ms| < |kinds| && kinds[pos + |ms|] == Blank &&
    forall k {:trigger ms[k]} :: 0 <= k < |ms| ==> kinds[pos + k] == Range(ms[k])
  }

  lemma {:induction false} CollectRangesRoundTrip(kinds: seq<RangeLine>, pos: nat, ms: seq<Mapping>)
    requires ReadsAsRanges(kinds, pos, ms)
    ensures CollectRanges(kinds, pos) == Some((ms, pos + |ms| + 1))
    decreases |ms|
  {
    if ms != [] {
      assert kinds[pos + 0] == Range(ms[0]);
      forall k | 0 <= k < |ms| - 1 ensures kinds[pos + 1 + k] == Range(ms[1..][k]) {
        assert kinds[pos + (k + 1)] == Range(ms[k + 1]);
      }
      CollectRangesRoundTrip(kinds, pos + 1, ms[1..]);
      assert [ms[0]] + ms[1..] == ms;
    }
  }

  /** Lines that read as the ranges `ms` and then a blank line are collected as `ms`,
      and the loop stops just after the blank line. */
  lemma ReadMappingsOfKinds(lines: seq<string>, pos: nat, ms: seq<Mapping>)
    requires ReadsAsRanges(LineKinds(lines), pos, ms)
    ensures ReadMappings(lines, pos) == Some((ms, pos + |ms| + 1))
  {
    CollectRangesRoundTrip(LineKinds(lines), pos, ms);
  }

  /** The ranges written from `pos` on, followed by a blank line, are read back. */
  lemma ReadMappingsRoundTrip(lines: seq<string>, pos: nat, ms: seq<Mapping>)
    requires pos + |ms| < |lines| && lines[pos + |ms|] == ""
    requires forall k {:trigger MappingLine(ms[k])} :: 0 <= k < |ms| ==> lines[pos + k] == MappingLine(ms[k])
    ensures ReadMappings(lines, pos) == Some((ms, pos + |ms| + 1))
  {
    WrittenRanges(lines, pos, ms);
    CollectRangesRoundTrip(LineKinds(lines), pos, ms);
  }

  lemma WrittenRanges(lines: seq<string>, pos: nat, ms: seq<Mapping>)
    requires pos + |ms| < |lines| && lines[pos + |ms|] == ""
    requires forall k {:trigger MappingLine(ms[k])} :: 0 <= k < |ms| ==> lines[pos + k] == MappingLine(ms[k])
    ensures ReadsAsRanges(LineKinds(lines), pos, ms)
  {
    forall k | 0 <= k < |ms| ensures ParseRangeLine(lines[pos + k] + "\n") == Range(ms[k]) {
      MappingLineReads(ms[k]);
    }
    KindsOfRanges(lines, pos, ms);
  }

  /** Lines that parse as the ranges `ms` and then a blank line are classified so. */
  lemma KindsOfRanges(lines: seq<string>, pos: nat, ms: seq<Mapping>)
    requires pos + |ms| < |lines| && lines[pos + |ms|] == ""
    requires forall k {:trigger ms[k]} :: 0 <= k < |ms| ==> ParseRangeLine(lines[pos + k] + "\n") == Range(ms[k])
    ensures ReadsAsRanges(LineKinds(lines), pos, ms)
  {
    BlankLineKind(lines, pos + |ms|);
  }

  lemma BlankLineKind(lines: seq<string>, i: nat)
    requires i < |lines| && lines[i] == ""
    ensures LineKinds(lines)[i] == Blank
  {
    assert lines[i] + "\n" == "\n";
    NewlineIsBlank();
  }

  lemma NewlineIsBlank()
    ensures ParseRangeLine("\n") == Blank
  {
    TrimEmpty("\n");
  }

  lemma HeaderReads(m: Map)
    requires WellFormed(m)
    ensures ParseHeader(Header(m) + "\n") == Some((m.source, m.destination))
  {
    var name := m.source + "-to-" + m.destination;
    assert ' ' !in name by {
      assert forall k :: 0 <= k < |name| ==> name[k] in m.source || name[k] in "-to-" || name[k] in m.destination;
    }
    assert Header(m) + "\n" == name + " " + "map:\n";
    SplitOncePattern(name, " ", "map:\n");
    SplitOnceAtIsSplitOnce(Header(m) + "\n", ' ');
    SplitOncePattern(m.source, "-to-", m.destination);
  }

  /** The lines from `pos` on read as the header and the ranges of `m`, then a blank line. */
  predicate ReadsAsMap(lines: seq<string>, pos: nat, m: Map) {
    pos < |lines| && Headers(lines)[pos] == Some((m.source, m.destination)) &&
    ReadsAsRanges(LineKinds(lines), pos + 1, m.mappings) && Sorted(m.mappings)
  }

  /** `Map::read` on a written map gives the map back and stops after its blank line. */
  lemma ReadMapRoundTrip(lines: seq<string>, pos: nat, m: Map)
    requires WellFormed(m)
    requires pos <= |lines| && MapLines(m) <= lines[pos..]
    ensures ReadMap(lines, pos) == Got(m, pos + |MapLines(m)|)
  {
    var next := pos + 1 + |m.mappings| + 1;
    WrittenMapHeader(lines, pos, m);
    WrittenMapRanges(lines, pos, m);
    ReadMapAt(lines, pos, m, next);
    assert next == pos + |MapLines(m)|;
  }

  /** A written map takes its ranges plus two lines, and its first line reads as a header
      naming its source and destination. */
  lemma WrittenMapHeader(lines: seq<string>, pos: nat, m: Map)
    requires WellFormed(m)
    requires pos <= |lines| && MapLines(m) <= lines[pos..]
    ensures |MapLines(m)| == |m.mappings| + 2 && Sorted(m.mappings)
    ensures pos < |lines| && Headers(lines)[pos] == Some((m.source, m.destination))
  {
    WrittenMap(lines, pos, m);
  }

  /** The lines after a written map's header are collected as its ranges, up to the blank
      line after them. */
  lemma WrittenMapRanges(lines: seq<string>, pos: nat, m: Map)
    requires WellFormed(m)
    requires pos <= |lines| && MapLines(m) <= lines[pos..]
    ensures ReadMappings(lines, pos + 1) == Some((m.mappings, pos + 1 + |m.mappings| + 1))
  {
    WrittenMap(lines, pos, m);
    ReadMappingsOfKinds(lines, pos + 1, m.mappings);
  }

  /** `Map::read` returns `m` when the line at `pos` is a header naming its source and
      destination and the lines after it collect to its ranges, already in order. */
  lemma ReadMapAt(lines: seq<string>, pos: nat, m: Map, next: nat)
    requires pos < |lines| && Headers(lines)[pos] == Some((m.source, m.destination))
    requires ReadMappings(lines, pos + 1) == Some((m.mappings, next)) && Sorted(m.mappings)
    ensures ReadMap(lines, pos) == Got(m, next)
  {
    NewMapSorted(m.source, m.destination, m.mappings);
    ReadMapGot(lines, pos);
  }

  /** A line that reads as a header, followed by lines that read as ranges, makes
      `Map::read` return the map they describe. */
  lemma ReadMapGot(lines: seq<string>, pos: nat)
    requires pos < |lines| && Headers(lines)[pos].Some? && ReadMappings(lines, pos + 1).Some?
    ensures var header := Headers(lines)[pos].value;
      var ranges := ReadMappings(lines, pos + 1).value;
      ReadMap(lines, pos) == Got(NewMap(header.0, header.1, ranges.0), ranges.1)
  {
    assert |ReadLine(lines, pos)| != 0;
  }

  lemma WrittenMap(lines: seq<string>, pos: nat, m: Map)
    requires WellFormed(m)
    requires pos <= |lines| && MapLines(m) <= lines[pos..]
    ensures |MapLines(m)| == |m.mappings| + 2
    ensures ReadsAsMap(lines, pos, m)
  {
    var ms := m.mappings;
    var written := MapLines(m);
    assert |written| == |ms| + 2;
    assert lines[pos] == lines[pos..][0] == written[0];
    assert lines[pos + 1 + |ms|] == lines[pos..][1 + |ms|] == written[1 + |ms|];
    forall k | 0 <= k < |ms| ensures lines[pos + 1 + k] == MappingLine(ms[k]) {
      assert lines[pos + 1 + k] == lines[pos..][1 + k] == written[1 + k];
    }
    WrittenRanges(lines, pos + 1, ms);
    HeaderReads(m);
    HeadersAt(lines, pos);
  }

  lemma {:induction false} ReadMapsRoundTrip(lines: seq<string>, pos: nat, maps: seq<Map>)
    requires forall k :: 0 <= k < |maps| ==> WellFormed(maps[k])
    requires pos <= |lines| && lines[pos..] == MapsLines(maps)
    ensures ReadMaps(lines, pos) == Some(maps)
    decreases |maps|
  {
    if maps == [] {
      ReadMapsEnd(lines, pos);
    } else {
      var next := ReadMapsHead(lines, pos, maps);
      ReadMapsRoundTrip(lines, next, maps[1..]);
      ReadMapsCons(lines, pos, maps[0], next, maps[1..]);
      SplitFirst(maps);
    }
  }

  /** The first written map is read back, and the rest of the lines are the other maps. */
  lemma ReadMapsHead(lines: seq<string>, pos: nat, maps: seq<Map>) returns (next: nat)
    requires forall k :: 0 <= k < |maps| ==> WellFormed(maps[k])
    requires pos <= |lines| && lines[pos..] == MapsLines(maps) && maps != []
    ensures next <= |lines| && ReadMap(lines, pos) == Got(maps[0], next)
    ensures lines[next..] == MapsLines(maps[1..])
    ensures forall k :: 0 <= k < |maps[1..]| ==> WellFormed(maps[1..][k])
  {
    next := pos + |MapLines(maps[0])|;
    MapsLinesSplit(lines, pos, maps);
    WellFormedTail(maps);
    ReadMapRoundTrip(lines, pos, maps[0]);
  }

  lemma WellFormedTail(maps: seq<Map>)
    requires maps != [] && forall k :: 0 <= k < |maps| ==> WellFormed(maps[k])
    ensures WellFormed(maps[0]) && forall k :: 0 <= k < |maps[1..]| ==> WellFormed(maps[1..][k])
  {
    assert forall k :: 0 <= k < |maps| - 1 ==> maps[1..][k] == maps[k + 1];
  }

  lemma MapsLinesSplit(lines: seq<string>, pos: nat, maps: seq<Map>)
    requires pos <= |lines| && lines[pos..] == MapsLines(maps) && maps != []
    ensures MapLines(maps[0]) <= lines[pos..]
    ensures pos + |MapLines(maps[0])| <= |lines|
    ensures lines[pos + |MapLines(maps[0])|..] == MapsLines(maps[1..])
  {
    var n := |MapLines(maps[0])|;
    assert MapsLines(maps) == MapLines(maps[0]) + MapsLines(maps[1..]);
    assert lines[pos + n..] == lines[pos..][n..];
  }

  lemma ReadMapsCons(lines: seq<string>, pos: nat, m: Map, next: nat, rest: seq<Map>)
    requires ReadMap(lines, pos) == Got(m, next) && ReadMaps(lines, next) == Some(rest)
    ensures ReadMaps(lines, pos) == Some([m] + rest)
  {
  }

  lemma ReadMapsEnd(lines: seq<string>, pos: nat)
    requires pos <= |lines| && lines[pos..] == []
    ensures ReadMaps(lines, pos) == Some([])
  {
    assert |lines| == pos;
  }

  lemma ReadSeedNumbersRoundTrip(seeds: seq<nat>, rest: seq<string>)
    ensures ReadSeedNumbers([SeedLine(seeds), ""] + rest, 0) == Some((seeds, 2))
  {
    var lines := [SeedLine(seeds), ""] + rest;
    assert ReadLine(lines, 0) == SeedLine(seeds) + "\n";
    SeedLineSplits(seeds);
    SeedNumbersParse(seeds);
  }

  lemma SeedLineSplits(seeds: seq<nat>)
    ensures SplitOnce(SeedLine(seeds) + "\n", ": ") == Some(("seeds", Join(NatTexts(seeds), " ") + "\n"))
  {
    var numbers := Join(NatTexts(seeds), " ");
    assert SeedLine(seeds) + "\n" == "seeds" + ": " + (numbers + "\n");
    SplitOncePattern("seeds", ": ", numbers + "\n");
  }

  lemma SeedNumbersParse(seeds: seq<nat>)
    ensures ParseNats(SplitWhitespace(Join(NatTexts(seeds), " ") + "\n")) == Some(seeds)
  {
    SplitWhitespaceTrailing(Join(NatTexts(seeds), " "), '\n');
    SplitNatTexts(seeds);
    ParseNatTexts(seeds);
  }

  /** `read_data` on a written almanac gives back its seeds and maps. */
  lemma ReadDataRoundTrip(seeds: seq<nat>, maps: seq<Map>)
    requires forall k :: 0 <= k < |maps| ==> WellFormed(maps[k])
    ensures ReadData(Almanac(seeds, maps)) == Some((seeds, maps))
  {
    var lines := Almanac(seeds, maps);
    ReadSeedNumbersRoundTrip(seeds, MapsLines(maps));
    assert lines[2..] == MapsLines(maps);
    ReadMapsRoundTrip(lines, 2, maps);
  }

  /** The example input: seeds 79, 14, 55 and 13, then the seed-to-soil map. */
  lemma ReadExample(lines: seq<string>, m: Map)
    requires |lines| == 6 && lines[0] == "seeds: 79 14 55 13" && lines[1] == ""
    requires lines[2] == "seed-to-soil map:" && lines[3] == "50 98 2"
    requires lines[4] == "52 50 48" && lines[5] == ""
    requires m == Map("seed", "soil", [Mapping(50, 98, 2), Mapping(52, 50, 48)])
    ensures ReadSeedNumbers(lines, 0) == Some(([79, 14, 55, 13], 2))
    ensures ReadMap(lines, 2) == Got(NewMap(m.source, m.destination, m.mappings), 6)
  {
    ExampleSeeds(lines);
    ExampleMap(lines, m);
  }

  lemma ExampleMap(lines: seq<string>, m: Map)
    requires |lines| == 6 && lines[2] == "seed-to-soil map:" && lines[3] == "50 98 2"
    requires lines[4] == "52 50 48" && lines[5] == ""
    requires m == Map("seed", "soil", [Mapping(50, 98, 2), Mapping(52, 50, 48)])
    ensures ReadMap(lines, 2) == Got(NewMap(m.source, m.destination, m.mappings), 6)
  {
    ExampleMapLines(m);
    ExampleMapText(lines);
    ExampleSorted(m.mappings);
    ReadMapRoundTrip(lines, 2, m);
    NewMapSorted(m.source, m.destination, m.mappings);
  }

  lemma ExampleMapText(lines: seq<string>)
    requires |lines| == 6 && lines[2] == "seed-to-soil map:" && lines[3] == "50 98 2"
    requires lines[4] == "52 50 48" && lines[5] == ""
    ensures lines[2..] == ["seed-to-soil map:", "50 98 2", "52 50 48", ""]
  {
  }

  lemma ExampleSorted(ms: seq<Mapping>)
    requires ms == [Mapping(50, 98, 2), Mapping(52, 50, 48)]
    ensures WellFormed(Map("seed", "soil", ms))
  {
  }

  lemma ExampleSeeds(lines: seq<string>)
    requires |lines| >= 2 && lines[0] == "seeds: 79 14 55 13" && lines[1] == ""
    ensures ReadSeedNumbers(lines, 0) == Some(([79, 14, 55, 13], 2))
  {
    ExampleSeedLine();
    assert lines == [SeedLine([79, 14, 55, 13]), ""] + lines[2..];
    ReadSeedNumbersRoundTrip([79, 14, 55, 13], lines[2..]);
  }

  lemma ExampleSeedLine()
    ensures SeedLine([79, 14, 55, 13]) == "seeds: 79 14 55 13"
  {
    SeedTexts();
    assert Join(["13"], " ") == "13";
    assert Join(["55", "13"], " ") == "55 13";
    assert Join(["14", "55", "13"], " ") == "14 55 13";
  }

  lemma SeedTexts()
    ensures NatTexts([79, 14, 55, 13]) == ["79", "14", "55", "13"]
  {
    TwoDigits(79);
    TwoDigits(14);
    TwoDigits(55);
    TwoDigits(13);
    var ns := [79, 14, 55, 13];
    assert NatTexts(ns)[0] == "79" && NatTexts(ns)[1] == "14";
    assert NatTexts(ns)[2] == "55" && NatTexts(ns)[3] == "13";
  }

  lemma ExampleMapLines(m: Map)
    requires m == Map("seed", "soil", [Mapping(50, 98, 2), Mapping(52, 50, 48)])
    ensures MapLines(m) == ["seed-to-soil map:", "50 98 2", "52 50 48", ""]
  {
    ExampleHeader(m);
    ExampleMappingLines(m.mappings);
  }

  lemma ExampleHeader(m: Map)
    requires m.source == "seed" && m.destination == "soil"
    ensures Header(m) == "seed-to-soil map:"
  {
  }

  lemma ExampleMappingLines(ms: seq<Mapping>)
    requires ms == [Mapping(50, 98, 2), Mapping(52, 50, 48)]
    ensures MappingLines(ms) == ["50 98 2", "52 50 48"]
  {
    ExampleRangeLines();
  }

  lemma ExampleRangeLines()
    ensures MappingLine(Mapping(50, 98, 2)) == "50 98 2"
    ensures MappingLine(Mapping(52, 50, 48)) == "52 50 48"
  {
    RangeTexts();
    assert Join(["98", "2"], " ") == "98 2";
    assert Join(["50", "48"], " ") == "50 48";
  }

  lemma RangeTexts()
    ensures NatTexts([50, 98, 2]) == ["50", "98", "2"]
    ensures NatTexts([52, 50, 48]) == ["52", "50", "48"]
  {
    TwoDigits(50);
    TwoDigits(98);
    TwoDigits(52);
    TwoDigits(48);
    var a, b := [50, 98, 2], [52, 50, 48];
    assert NatTexts(a)[0] == "50" && NatTexts(a)[1] == "98" && NatTexts(a)[2] == "2";
    assert NatTexts(b)[0] == "52" && NatTexts(b)[1] == "50" && NatTexts(b)[2] == "48";
  }
}

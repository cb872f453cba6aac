/** Day 6 (day06/src/lib.rs): a toy boat race. Holding the button for `t` milliseconds of a
    race lasting `duration` gives speed `t` for the rest of the race; the button presses that
    beat the `record` distance form an interval, whose ends two bisections find. */
module Day06 {
  import opened Wrappers
  import opened Strings

  /** `RaceInfo`; the `u64` width is not modelled. */
  datatype Race = Race(duration: nat, record: nat)

  /** `distance_travelled`: the time left after pressing (`saturating_sub`, so none once the
      press outlasts the race) times the speed. */
  function Distance(race: Race, t: nat): (d: nat)
    ensures t >= race.duration ==> d == 0
    ensures t <= race.duration ==> d == (race.duration - t) * t
  {
    (if t <= race.duration then race.duration - t else 0) * t
  }

  lemma DistanceExample()
    ensures Distance(Race(7, 9), 0) == 0 && Distance(Race(7, 9), 1) == 6
    ensures Distance(Race(7, 9), 2) == 10 && Distance(Race(7, 9), 3) == 12
    ensures Distance(Race(7, 9), 4) == 12 && Distance(Race(7, 9), 5) == 10
    ensures Distance(Race(7, 9), 6) == 6 && Distance(Race(7, 9), 7) == 0
    ensures Distance(Race(7, 9), 8) == 0 && Distance(Race(7, 9), 9) == 0
  {
  }

  /** Between two presses inside the race the distance changes by the gap between them
      times what is left of the race after both. */
  lemma DistanceDifference(race: Race, t1: nat, t2: nat)
    requires t1 <= t2 <= race.duration
    ensures Distance(race, t2) as int - Distance(race, t1) as int ==
      (t2 - t1) * (race.duration as int - t1 - t2)
  {
    var d := race.duration;
    calc {
      Distance(race, t2) as int - Distance(race, t1) as int;
      (d - t2) * t2 - (d - t1) * t1;
      d * t2 - t2 * t2 - d * t1 + t1 * t1;
      (t2 - t1) * (d as int - t1 - t2);
    }
  }

  lemma ProductNonnegative(a: int, b: int)
    requires a >= 0 && b >= 0
    ensures a * b >= 0
  {
  }

  /** The distance never falls on the first half of the race... */
  lemma DistanceRises(race: Race, t1: nat, t2: nat)
    requires t1 <= t2 <= race.duration / 2
    ensures Distance(race, t1) <= Distance(race, t2)
  {
    DistanceDifference(race, t1, t2);
    ProductNonnegative(t2 - t1, race.duration as int - t1 - t2);
  }

  /** ...and never rises on the second half. */
  lemma DistanceFalls(race: Race, t1: nat, t2: nat)
    requires race.duration / 2 <= t1 <= t2
    ensures Distance(race, t1) >= Distance(race, t2)
  {
    if t2 <= race.duration && t1 < t2 {
      DistanceDifference(race, t1, t2);
      ProductNonnegative(t2 - t1, t1 + t2 - race.duration as int);
    }
  }

  /** Pressing for half the race goes furthest. */
  lemma DistancePeak(race: Race, t: nat)
    ensures Distance(race, t) <= Distance(race, race.duration / 2)
  {
    if t <= race.duration / 2 {
      DistanceRises(race, t, race.duration / 2);
    } else {
      DistanceFalls(race, race.duration / 2, t);
    }
  }

  predicate Beats(race: Race, t: nat) {
    Distance(race, t) > race.record
  }

  /** `r` is what `find_min` promises: the shortest winning press of the first half of the
      race, or 0 where that half has none. */
  ghost predicate IsMin(race: Race, r: nat) {
    if exists t: nat :: t <= race.duration / 2 && Beats(race, t) then
      r <= race.duration / 2 && Beats(race, r) && forall t: nat :: t < r ==> !Beats(race, t)
    else r == 0
  }

  /** `r` is what `find_max` promises: the longest winning press of the second half of the
      race, or `duration` where that half has none. */
  ghost predicate IsMax(race: Race, r: nat) {
    if exists t: nat :: race.duration / 2 <= t <= race.duration && Beats(race, t) then
      race.duration / 2 <= r <= race.duration && Beats(race, r) &&
      forall t: nat :: r < t ==> !Beats(race, t)
    else r == race.duration
  }

  /** `find_min`: bisection over `[0, duration / 2]`, where the distance rises. */
  method FindMin(race: Race) returns (lowest: nat)
    ensures IsMin(race, lowest)
  {
    var half := race.duration / 2;
    var lo, hi := 0, half as int;
    lowest := 0;
    while lo <= hi
      invariant 0 <= lo <= hi + 1 <= half + 1
      invariant forall t: nat :: t < lo ==> !Beats(race, t)
      invariant (lowest == 0 && hi == half) || (lowest == hi + 1 && lowest <= half && Beats(race, lowest))
      decreases hi - lo
    {
      var mid := (lo + hi) / 2;
      if Distance(race, mid) > race.record {
        lowest := mid;
        hi := mid - 1;
      } else {
        forall t: nat | t <= mid ensures !Beats(race, t) {
          DistanceRises(race, t, mid);
        }
        lo := mid + 1;
      }
    }
    if lowest == 0 && hi == half {
      assert forall t: nat :: t <= half ==> !Beats(race, t);
    }
  }

  /** `find_max`: bisection over `[duration / 2, duration]`, where the distance falls. A race
      shorter than 2 makes `mid - 1` underflow. */
  method FindMax(race: Race) returns (highest: nat)
    requires race.duration >= 2
    ensures IsMax(race, highest)
  {
    var half := race.duration / 2;
    highest := race.duration;
    var lo, hi := half, race.duration as int;
    while lo <= hi
      invariant half <= lo <= hi + 1 <= race.duration + 1
      invariant forall t: nat :: hi < t ==> !Beats(race, t)
      invariant (highest == race.duration && lo == half) ||
                (highest == lo - 1 && half <= highest && Beats(race, highest))
      decreases hi - lo
    {
      var mid := (lo + hi) / 2;
      if Distance(race, mid) <= race.record {
        forall t: nat | mid <= t ensures !Beats(race, t) {
          DistanceFalls(race, mid, t);
        }
        hi := mid - 1;
      } else {
        highest := mid;
        lo := mid + 1;
      }
    }
    if !(highest == lo - 1 && half <= highest && Beats(race, highest)) {
      assert forall t: nat :: half <= t ==> !Beats(race, t);
    }
  }

  /** `solve`: the shortest and the longest winning presses. */
  method Solve(race: Race) returns (min: nat, max: nat)
    requires race.duration >= 2
    ensures IsMin(race, min) && IsMax(race, max)
  {
    min := FindMin(race);
    max := FindMax(race);
  }

  /** The presses that beat the record are exactly those from `min` to `max`, so the
      binaries' `max - min + 1` counts them; where none does, the bounds are 0 and
      `duration`. */
  lemma SolveIsWinningInterval(race: Race, min: nat, max: nat)
    requires IsMin(race, min) && IsMax(race, max)
    ensures (exists t: nat :: Beats(race, t)) ==> forall t: nat :: min <= t <= max <==> Beats(race, t)
    ensures (forall t: nat :: !Beats(race, t)) ==> min == 0 && max == race.duration
  {
    var half := race.duration / 2;
    if exists t: nat :: Beats(race, t) {
      var w: nat :| Beats(race, w);
      DistancePeak(race, w);
      assert Beats(race, half);
      assert half <= race.duration;
      forall t: nat | min <= t <= max ensures Beats(race, t) {
        if t <= half {
          DistanceRises(race, min, t);
        } else {
          DistanceFalls(race, t, max);
        }
      }
    }
  }

  /** An `IsMin` press is the only one. */
  lemma IsMinUnique(race: Race, r: nat, w: nat)
    requires w <= race.duration / 2 && Beats(race, w) && (w == 0 || !Beats(race, w - 1))
    requires IsMin(race, r)
    ensures r == w
  {
    if r < w {
      DistanceRises(race, r, w - 1);
    }
  }

  lemma IsMaxUnique(race: Race, r: nat, w: nat)
    requires race.duration / 2 <= w <= race.duration && Beats(race, w) && !Beats(race, w + 1)
    requires IsMax(race, r)
    ensures r == w
  {
    if r > w {
      DistanceFalls(race, w + 1, r);
    }
  }

  /** The bounds of the three example races. */
  lemma SolveExamples(min1: nat, max1: nat, min2: nat, max2: nat, min3: nat, max3: nat)
    requires IsMin(Race(7, 9), min1) && IsMax(Race(7, 9), max1)
    requires IsMin(Race(15, 40), min2) && IsMax(Race(15, 40), max2)
    requires IsMin(Race(30, 200), min3) && IsMax(Race(30, 200), max3)
    ensures (min1, max1) == (2, 5) && (min2, max2) == (4, 11) && (min3, max3) == (11, 19)
  {
    IsMinUnique(Race(7, 9), min1, 2);
    IsMaxUnique(Race(7, 9), max1, 5);
    IsMinUnique(Race(15, 40), min2, 4);
    IsMaxUnique(Race(15, 40), max2, 11);
    IsMinUnique(Race(30, 200), min3, 11);
    IsMaxUnique(Race(30, 200), max3, 19);
  }

  // ---------------------------------------------------------------------------------
  // Parsing
  // ---------------------------------------------------------------------------------

  /** The text after the first `:` (the `unwrap` of `split_once(":")` panics without one). */
  function AfterColon(line: string): Option<string> {
    var parts := SplitOnce(line, ":");
    if parts.None? then None else Some(parts.value.1)
  }

  /** `times.zip(distances)` with each number parsed as `zip` pulls it: a time first, then,
      while there is one, the distance beside it. A word that is not a number makes the
      `unwrap` panic: `None`. */
  function ZipRaces(times: seq<string>, distances: seq<string>): (r: Option<seq<Race>>)
    ensures r.Some? ==> |r.value| == if |times| <= |distances| then |times| else |distances|
    ensures r.Some? ==> forall k :: 0 <= k < |r.value| ==>
      ParseNat(times[k]) == Some(r.value[k].duration) && ParseNat(distances[k]) == Some(r.value[k].record)
    decreases |times|
  {
    if times == [] then Some([])
    else
      var t := ParseNat(times[0]);
      if t.None? then None
      else if distances == [] then Some([])
      else
        var d := ParseNat(distances[0]);
        if d.None? then None
        else
          var rest := ZipRaces(times[1..], distances[1..]);
          if rest.None? then None else Some([Race(t.value, d.value)] + rest.value)
  }

  /** `zip` fails exactly when a time it pulls, or a distance beside a time, is not a number. */
  lemma {:induction false} ZipRacesFails(times: seq<string>, distances: seq<string>)
    ensures ZipRaces(times, distances).None? <==>
      (exists k :: 0 <= k < |times| && k <= |distances| && ParseNat(times[k]).None?) ||
      (exists k :: 0 <= k < |times| && k < |distances| && ParseNat(distances[k]).None?)
    decreases |times|
  {
    if times != [] && ParseNat(times[0]).Some? && distances != [] && ParseNat(distances[0]).Some? {
      ZipRacesFails(times[1..], distances[1..]);
      if exists k :: 0 <= k < |times| - 1 && k <= |distances| - 1 && ParseNat(times[1..][k]).None? {
        var k :| 0 <= k < |times| - 1 && k <= |distances| - 1 && ParseNat(times[1..][k]).None?;
        assert ParseNat(times[k + 1]).None?;
      }
      if exists k :: 0 <= k < |times| - 1 && k < |distances| - 1 && ParseNat(distances[1..][k]).None? {
        var k :| 0 <= k < |times| - 1 && k < |distances| - 1 && ParseNat(distances[1..][k]).None?;
        assert ParseNat(distances[k + 1]).None?;
      }
      if exists k :: 0 <= k < |times| && k <= |distances| && ParseNat(times[k]).None? {
        var k :| 0 <= k < |times| && k <= |distances| && ParseNat(times[k]).None?;
        assert times[1..][k - 1] == times[k];
      }
      if exists k :: 0 <= k < |times| && k < |distances| && ParseNat(distances[k]).None? {
        var k :| 0 <= k < |times| && k < |distances| && ParseNat(distances[k]).None?;
        assert distances[1..][k - 1] == distances[k];
      }
    }
  }

  /** `parse_problem`: the k-th time after the `:` of the first line races against the
      k-th distance after the `:` of the second. */
  function ParseProblem(timeLine: string, distanceLine: string): Option<seq<Race>> {
    var times := AfterColon(timeLine);
    var distances := AfterColon(distanceLine);
    if times.None? || distances.None? then None
    else ZipRaces(SplitWhitespace(times.value), SplitWhitespace(distances.value))
  }

  /** `parse_kerning`: all the words after the `:` run together into one number. */
  function ParseKerning(timeLine: string, distanceLine: string): Option<Race> {
    var times := AfterColon(timeLine);
    var distances := AfterColon(distanceLine);
    if times.None? || distances.None? then None
    else
      var duration := ParseNat(Concat(SplitWhitespace(times.value)));
      var record := ParseNat(Concat(SplitWhitespace(distances.value)));
      if duration.None? || record.None? then None else Some(Race(duration.value, record.value))
  }

  // ---------------------------------------------------------------------------------
  // The input written back
  // ---------------------------------------------------------------------------------

  /** An input line: a caption, a colon and the numbers separated by single spaces. */
  function Line(caption: string, ns: seq<nat>): string {
    caption + ":" + " " + Join(NatTexts(ns), " ")
  }

  lemma WordsOfLine(caption: string, ns: seq<nat>)
    requires ':' !in caption
    ensures AfterColon(Line(caption, ns)) == Some(" " + Join(NatTexts(ns), " "))
    ensures SplitWhitespace(" " + Join(NatTexts(ns), " ")) == NatTexts(ns)
  {
    var rest := " " + Join(NatTexts(ns), " ");
    assert Line(caption, ns) == caption + [':'] + rest;
    SplitOnceChar(caption, ':', rest);
    SplitNatTexts(ns);
    assert rest[1..] == Join(NatTexts(ns), " ");
  }

  function Durations(races: seq<Race>): (r: seq<nat>)
    ensures |r| == |races| && forall k :: 0 <= k < |races| ==> r[k] == races[k].duration
  {
    if races == [] then [] else [races[0].duration] + Durations(races[1..])
  }

  function Records(races: seq<Race>): (r: seq<nat>)
    ensures |r| == |races| && forall k :: 0 <= k < |races| ==> r[k] == races[k].record
  {
    if races == [] then [] else [races[0].record] + Records(races[1..])
  }

  /** Texts that read as the durations and the records of some races zip into those races. */
  lemma {:induction false} ZipParsed(times: seq<string>, distances: seq<string>, races: seq<Race>)
    requires |times| == |distances| == |races|
    requires forall k :: 0 <= k < |races| ==>
      ParseNat(times[k]) == Some(races[k].duration) && ParseNat(distances[k]) == Some(races[k].record)
    ensures ZipRaces(times, distances) == Some(races)
    decreases |races|
  {
    if races != [] {
      ZipParsed(times[1..], distances[1..], races[1..]);
      SplitFirst(races);
    }
  }

  lemma ZipTexts(races: seq<Race>)
    ensures ZipRaces(NatTexts(Durations(races)), NatTexts(Records(races))) == Some(races)
  {
    var times, records := NatTexts(Durations(races)), NatTexts(Records(races));
    forall k | 0 <= k < |races|
      ensures ParseNat(times[k]) == Some(races[k].duration) && ParseNat(records[k]) == Some(races[k].record)
    {
      ParseNatText(races[k].duration);
      ParseNatText(races[k].record);
    }
    ZipParsed(times, records, races);
  }

  /** Reading the two lines that list the races gives the races back. */
  lemma ParseProblemRoundTrip(races: seq<Race>)
    ensures ParseProblem(Line("Time", Durations(races)), Line("Distance", Records(races))) == Some(races)
  {
    WordsOfLine("Time", Durations(races));
    WordsOfLine("Distance", Records(races));
    ZipTexts(races);
  }

  /** The number of decimal digits of `n`. */
  function DigitCount(n: nat): nat {
    if n < 10 then 1 else DigitCount(n / 10) + 1
  }

  lemma {:induction false} DigitCountIsTextLength(n: nat)
    ensures DigitCount(n) == |NatText(n)|
  {
    if n >= 10 {
      DigitCountIsTextLength(n / 10);
    }
  }

  /** The number the digits of `ns` write when run together. */
  function Kerned(ns: seq<nat>): nat {
    if ns == [] then 0
    else Kerned(ns[..|ns| - 1]) * Pow10(DigitCount(ns[|ns| - 1])) + ns[|ns| - 1]
  }

  lemma {:induction false} ConcatTexts(ns: seq<nat>)
    ensures AllDigits(Concat(NatTexts(ns))) && DecimalValue(Concat(NatTexts(ns))) == Kerned(ns)
    decreases |ns|
  {
    if ns != [] {
      var init, last := ns[..|ns| - 1], ns[|ns| - 1];
      var front, back := Concat(NatTexts(init)), NatText(last);
      ConcatTexts(init);
      assert NatTexts(ns) == NatTexts(init) + [back];
      ConcatSnoc(NatTexts(init), back);
      assert Concat(NatTexts(ns)) == front + back;
      DecimalValueConcat(front, back);
      DigitCountIsTextLength(last);
      assert DecimalValue(front + back) == Kerned(init) * Pow10(DigitCount(last)) + last;
    }
  }

  lemma {:induction false} ConcatSnoc(pieces: seq<string>, p: string)
    ensures Concat(pieces + [p]) == Concat(pieces) + p
    decreases |pieces|
  {
    if pieces == [] {
      assert [] + [p] == [p];
    } else {
      ConcatSnoc(pieces[1..], p);
      assert (pieces + [p])[1..] == pieces[1..] + [p];
    }
  }

  /** The words after the colon of a line run together into the kerned number. */
  lemma KernedLine(caption: string, ns: seq<nat>)
    requires ':' !in caption && ns != []
    ensures AfterColon(Line(caption, ns)).Some?
    ensures ParseNat(Concat(SplitWhitespace(AfterColon(Line(caption, ns)).value))) == Some(Kerned(ns))
  {
    WordsOfLine(caption, ns);
    var text := Concat(NatTexts(ns));
    ConcatTexts(ns);
    assert |text| > 0 by {
      ConcatNonEmpty(NatTexts(ns));
    }
  }

  /** With bad kerning, the numbers of a line run together: the race lasts the number all
      the times write side by side, and its record is the same for the distances. */
  lemma ParseKerningRunsDigitsTogether(times: seq<nat>, distances: seq<nat>)
    requires times != [] && distances != []
    ensures ParseKerning(Line("Time", times), Line("Distance", distances)) ==
      Some(Race(Kerned(times), Kerned(distances)))
  {
    KernedLine("Time", times);
    KernedLine("Distance", distances);
  }

  lemma ConcatNonEmpty(pieces: seq<string>)
    requires pieces != [] && pieces[0] != []
    ensures Concat(pieces) != []
  {
  }

  /** The example: times 7, 15, 30 and records 9, 40, 200 read as one race of 71530 with
      record 940200. */
  lemma KernedExample()
    ensures Kerned([7, 15, 30]) == 71530 && Kerned([9, 40, 200]) == 940200
  {
    assert [7, 15, 30][..2] == [7, 15] && [7, 15][..1] == [7];
    assert [9, 40, 200][..2] == [9, 40] && [9, 40][..1] == [9];
  }
}

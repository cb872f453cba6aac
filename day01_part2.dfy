/** Day 1, second part (day01/src/bin/part2.rs): digits may be spelled out, and the line
    is scanned left to right, jumping past most of every spelling it recognises. */
module Day01Part2 {
  import opened Wrappers
  import opened Strings
  import Day01

  /** How far the scanner moves after a match of the given size: `max(1, size - 1)`, so
      that a spelling sharing its last letter with the next one does not hide it. */
  function Step(size: nat): (n: nat)
    ensures n >= 1 && (size >= 1 ==> n <= size)
  {
    if size >= 2 then size - 1 else 1
  }

  /** The digits the scanner collects from index `idx` on: at a match it records the digit
      and moves by `Step(size)`, elsewhere by one. */
  function Skip(st: string, idx: nat): seq<char>
    decreases |st| - idx
  {
    if idx >= |st| then []
    else
      var found := Day01.FirstMatch(st[idx..], Day01.Options);
      if found.Some? then [found.value.0] + Skip(st, idx + Step(found.value.1))
      else Skip(st, idx + 1)
  }

  /** `collect_values`: the scanning loop, then the first and last digit joined. */
  method CollectValues(st: string) returns (r: Option<nat>)
    ensures r == Day01.Calibrate(Skip(st, 0))
  {
    var idx: nat := 0;
    var digits: seq<char> := [];
    while idx < |st|
      invariant digits + Skip(st, idx) == Skip(st, 0)
      decreases |st| - idx
    {
      var found := Day01.ParseString(st[idx..]);
      match found {
        case Some((value, size)) =>
          var step := if 1 < size - 1 then size - 1 else 1;
          assert (digits + [value]) + Skip(st, idx + step) == Skip(st, 0) by {
            assert step == Step(size);
            SkipFound(st, idx, value, size);
            ConcatAssociative(digits, [value], Skip(st, idx + step));
          }
          digits := digits + [value];
          idx := idx + step;
        case None =>
          assert digits + Skip(st, idx + 1) == Skip(st, 0) by {
            SkipMissing(st, idx);
          }
          idx := idx + 1;
      }
    }
    assert Skip(st, idx) == [];
    r := Day01.Calibrate(digits);
  }

  /** One step of the scan, after a match at `idx` and where there is none. */
  lemma SkipFound(st: string, idx: nat, value: char, size: nat)
    requires idx < |st| && Day01.FirstMatch(st[idx..], Day01.Options) == Some((value, size))
    ensures Skip(st, idx) == [value] + Skip(st, idx + Step(size))
  {
  }

  lemma SkipMissing(st: string, idx: nat)
    requires idx < |st| && Day01.FirstMatch(st[idx..], Day01.Options).None?
    ensures Skip(st, idx) == Skip(st, idx + 1)
  {
  }

  // ---------------------------------------------------------------------------------------
  // The jump never misses a spelling
  // ---------------------------------------------------------------------------------------

  /** The first two letters of a spelled-out digit. */
  predicate Opening(c: char, d: char) {
    (c == 'z' && d == 'e') || (c == 'o' && d == 'n') || (c == 't' && d == 'w') ||
    (c == 't' && d == 'h') || (c == 'f' && d == 'o') || (c == 'f' && d == 'i') ||
    (c == 's' && d == 'i') || (c == 's' && d == 'e') || (c == 'e' && d == 'i') ||
    (c == 'n' && d == 'i')
  }

  lemma Openings(m: nat)
    requires m < 10
    ensures |Day01.NumberOption(m).0| >= 2
    ensures Opening(Day01.NumberOption(m).0[0], Day01.NumberOption(m).0[1])
  {
  }

  /** No spelling has, strictly inside it and not at its last letter, two letters that
      open another spelling; nor a digit. */
  lemma InnerPairs(j: nat, k: nat)
    requires j < 10
    requires 1 <= k && k + 2 <= |Day01.NumberOption(j).0|
    ensures Day01.IsLetter(Day01.NumberOption(j).0[k])
    ensures !Opening(Day01.NumberOption(j).0[k], Day01.NumberOption(j).0[k + 1])
  {
  }

  /** What a spelling starting inside another one would have to agree with. */
  lemma PrefixInside(st: string, idx: nat, word: string, k: nat, other: string)
    requires idx <= |st| && StartsWith(st[idx..], word)
    requires 1 <= k && k + 2 <= |word|
    ensures StartsWith(st[idx + k..], other) && |other| >= 1 ==> other[0] == word[k]
    ensures StartsWith(st[idx + k..], other) && |other| >= 2 ==> other[1] == word[k + 1]
  {
    if StartsWith(st[idx + k..], other) {
      assert st[idx + k] == word[k];
      if |other| >= 1 {
        assert other[0] == st[idx + k];
      }
      if |other| >= 2 {
        assert other[1] == st[idx + k + 1] == word[k + 1];
      }
    }
  }

  /** Where a spelling of size `size` matches at `idx`, nothing matches at the positions the
      scanner jumps over. */
  lemma NoMatchInside(st: string, idx: nat, value: char, size: nat, i: nat)
    requires idx < |st| && Day01.FirstMatch(st[idx..], Day01.Options) == Some((value, size))
    requires idx < i && i + 1 < idx + size
    ensures i <= |st| && Day01.FirstMatch(st[i..], Day01.Options).None?
  {
    Day01.FirstMatchSpec(st[idx..], Day01.Options);
    var j :| 0 <= j < Day01.Options && StartsWith(st[idx..], Day01.NumberOption(j).0) &&
      Some((value, size)) == Some((Day01.NumberOption(j).1, |Day01.NumberOption(j).0|)) &&
      forall l :: 0 <= l < j ==> !StartsWith(st[idx..], Day01.NumberOption(l).0);
    var word := Day01.NumberOption(j).0;
    Day01.NumberOptionsWellFormed(j);
    var k := i - idx;
    assert j < 10;
    InnerPairs(j, k);
    assert st[idx + k..] == st[i..];
    forall m | 0 <= m < Day01.Options
      ensures !StartsWith(st[i..], Day01.NumberOption(m).0)
    {
      Day01.NumberOptionsWellFormed(m);
      PrefixInside(st, idx, word, k, Day01.NumberOption(m).0);
      if m < 10 {
        Openings(m);
      }
    }
    Day01.FirstMatchSpec(st[i..], Day01.Options);
  }

  /** No digit, written or spelled, is read at index `k` of `st`. */
  predicate Unread(st: string, k: nat)
    requires k <= |st|
  {
    Day01.FirstMatch(st[k..], Day01.Options).None?
  }

  /** Positions without a match add nothing to the every-index scan of `collect_values2`. */
  lemma {:induction false} SpelledGap(st: string, lo: nat, hi: nat)
    requires lo <= hi <= |st|
    requires forall i :: lo <= i < hi ==> Unread(st, i)
    ensures Day01.Spelled(st, lo) == Day01.Spelled(st, hi)
    decreases hi - lo
  {
    if lo < hi {
      assert Unread(st, lo);
      SpelledGap(st, lo + 1, hi);
    }
  }

  /** After a match at `idx`, the every-index scan finds that digit and then nothing until
      the scanner's next position. */
  lemma SpelledAfterMatch(st: string, idx: nat, value: char, size: nat)
    requires idx < |st| && Day01.FirstMatch(st[idx..], Day01.Options) == Some((value, size))
    ensures idx + Step(size) <= |st|
    ensures Day01.Spelled(st, idx) == [value] + Day01.Spelled(st, idx + Step(size))
  {
    Day01.FirstMatchSpec(st[idx..], Day01.Options);
    var j :| 0 <= j < Day01.Options && StartsWith(st[idx..], Day01.NumberOption(j).0) &&
      Some((value, size)) == Some((Day01.NumberOption(j).1, |Day01.NumberOption(j).0|)) &&
      forall l :: 0 <= l < j ==> !StartsWith(st[idx..], Day01.NumberOption(l).0);
    Day01.NumberOptionsWellFormed(j);
    var next := idx + Step(size);
    assert next <= |st|;
    forall i | idx + 1 <= i < next
      ensures Unread(st, i)
    {
      NoMatchInside(st, idx, value, size, i);
    }
    SpelledGap(st, idx + 1, next);
  }

  /** Jumping by `max(1, size - 1)` finds exactly the digits that trying every index
      finds: no two spellings overlap by more than one letter, so the second reading of
      main.rs (`collect_values2`) and this scanner agree on every line. */
  lemma {:induction false} SkipSpelled(st: string, idx: nat)
    requires idx <= |st|
    ensures Skip(st, idx) == Day01.Spelled(st, idx)
    decreases |st| - idx
  {
    if idx < |st| {
      match Day01.FirstMatch(st[idx..], Day01.Options)
      case None =>
        SkipMissing(st, idx);
        SkipSpelled(st, idx + 1);
      case Some((value, size)) =>
        SpelledAfterMatch(st, idx, value, size);
        SkipFound(st, idx, value, size);
        SkipSpelled(st, idx + Step(size));
    }
  }

  /** The scanner's value is the value `collect_values2` of main.rs computes. */
  lemma CollectValuesAgree(st: string)
    ensures Day01.Calibrate(Skip(st, 0)) == Day01.Calibrate(Day01.Spelled(st, 0))
    ensures Day01.AllDigitChars(Skip(st, 0))
  {
    SkipSpelled(st, 0);
    Day01.SpelledDigits(st, 0);
  }

  // ---------------------------------------------------------------------------------------
  // The values of whole lines
  // ---------------------------------------------------------------------------------------

  /** Distinct spellings open with distinct pairs of letters. */
  lemma OpeningsDistinct(i: nat, j: nat)
    requires i < 10 && j < 10 && i != j
    ensures Day01.NumberOption(i).0[..2] != Day01.NumberOption(j).0[..2]
  {
    assert Day01.NumberOption(i).0[0] != Day01.NumberOption(j).0[0] ||
      Day01.NumberOption(i).0[1] != Day01.NumberOption(j).0[1];
  }

  /** At most one entry of the table starts any text. */
  lemma UniquePrefix(s: string, i: nat, j: nat)
    requires i < Day01.Options && j < Day01.Options
    requires StartsWith(s, Day01.NumberOption(i).0) && StartsWith(s, Day01.NumberOption(j).0)
    ensures i == j
  {
    Day01.NumberOptionsWellFormed(i);
    Day01.NumberOptionsWellFormed(j);
    var u, w := Day01.NumberOption(i).0, Day01.NumberOption(j).0;
    assert u[0] == s[0] == w[0];
    if i < 10 && j < 10 && i != j {
      OpeningsDistinct(i, j);
    }
  }

  /** A text starting with entry `j` of the table is read as that entry. */
  lemma MatchAt(s: string, j: nat)
    requires j < Day01.Options && StartsWith(s, Day01.NumberOption(j).0)
    ensures Day01.FirstMatch(s, Day01.Options) == Some((Day01.NumberOption(j).1, |Day01.NumberOption(j).0|))
  {
    Day01.FirstMatchSpec(s, Day01.Options);
    var k :| 0 <= k < Day01.Options && StartsWith(s, Day01.NumberOption(k).0) &&
      Day01.FirstMatch(s, Day01.Options).value == (Day01.NumberOption(k).1, |Day01.NumberOption(k).0|) &&
      forall l :: 0 <= l < k ==> !StartsWith(s, Day01.NumberOption(l).0);
    UniquePrefix(s, j, k);
  }

  /** A text that opens with neither a digit nor the first two letters of a spelling is
      not read as a digit; nor is one that opens like spelling `m` but then departs from it
      at index `d`. */
  lemma NoMatchAt(s: string, m: nat, d: nat)
    requires s == [] || !IsDigit(s[0])
    requires m < 10 && d < |Day01.NumberOption(m).0|
    requires |s| < 2 || !Opening(s[0], s[1]) ||
      (s[..2] == Day01.NumberOption(m).0[..2] && (d >= |s| || s[d] != Day01.NumberOption(m).0[d]))
    ensures Day01.FirstMatch(s, Day01.Options).None?
  {
    forall l | 0 <= l < Day01.Options
      ensures !StartsWith(s, Day01.NumberOption(l).0)
    {
      Day01.NumberOptionsWellFormed(l);
      Day01.NumberOptionsWellFormed(m);
      if l < 10 {
        Openings(l);
        if l != m {
          OpeningsDistinct(l, m);
        }
      }
    }
    Day01.FirstMatchSpec(s, Day01.Options);
  }

  /** The last digit found from `lo` on is the last one found from any later `hi` that
      still finds one. */
  lemma {:induction false} SpelledLastFrom(st: string, lo: nat, hi: nat)
    requires lo <= hi <= |st| && Day01.Spelled(st, hi) != []
    ensures Day01.Spelled(st, lo) != []
    ensures Day01.Spelled(st, lo)[|Day01.Spelled(st, lo)| - 1] == Day01.Spelled(st, hi)[|Day01.Spelled(st, hi)| - 1]
    decreases hi - lo
  {
    if lo < hi {
      SpelledLastFrom(st, lo + 1, hi);
    }
  }

  /** The value of a line is read off its first and its last reading position. */
  lemma ScanValue(st: string, i: nat, first: char, j: nat, last: char)
    requires i <= j < |st|
    requires Day01.FirstMatch(st[i..], Day01.Options).Some? && Day01.FirstMatch(st[i..], Day01.Options).value.0 == first
    requires Day01.FirstMatch(st[j..], Day01.Options).Some? && Day01.FirstMatch(st[j..], Day01.Options).value.0 == last
    requires forall k :: 0 <= k < i ==> Unread(st, k)
    requires forall k :: j < k < |st| ==> Unread(st, k)
    ensures IsDigit(first) && IsDigit(last)
    ensures Day01.Calibrate(Skip(st, 0)) == Some(10 * DigitValue(first) + DigitValue(last))
  {
    var ds := Day01.Spelled(st, 0);
    assert Skip(st, 0) == ds by {
      SkipSpelled(st, 0);
    }
    assert Day01.AllDigitChars(ds) && ds != [] && ds[0] == first && ds[|ds| - 1] == last by {
      Day01.SpelledDigits(st, 0);
      SpelledEnds(st, i, first, j, last);
    }
    CalibrateEnds(ds, first, last);
  }

  /** The every-index scan opens with the digit at the first reading position and closes
      with the digit at the last one. */
  lemma SpelledEnds(st: string, i: nat, first: char, j: nat, last: char)
    requires i <= j < |st|
    requires Day01.FirstMatch(st[i..], Day01.Options).Some? && Day01.FirstMatch(st[i..], Day01.Options).value.0 == first
    requires Day01.FirstMatch(st[j..], Day01.Options).Some? && Day01.FirstMatch(st[j..], Day01.Options).value.0 == last
    requires forall k :: 0 <= k < i ==> Unread(st, k)
    requires forall k :: j < k < |st| ==> Unread(st, k)
    ensures Day01.Spelled(st, 0) != []
    ensures Day01.Spelled(st, 0)[0] == first && Day01.Spelled(st, 0)[|Day01.Spelled(st, 0)| - 1] == last
  {
    var ds := Day01.Spelled(st, 0);
    SpelledGap(st, 0, i);
    assert ds[0] == first;
    SpelledGap(st, j + 1, |st|);
    assert Day01.Spelled(st, j) == [last];
    SpelledLastFrom(st, 0, j);
  }

  lemma CalibrateEnds(ds: seq<char>, first: char, last: char)
    requires Day01.AllDigitChars(ds) && ds != [] && ds[0] == first && ds[|ds| - 1] == last
    ensures IsDigit(first) && IsDigit(last)
    ensures Day01.Calibrate(ds) == Some(10 * DigitValue(first) + DigitValue(last))
  {
    Day01.CalibrateValue(ds);
  }

  /** No reading position in `st[lo..hi]` reads a digit when each of them either opens
      with neither a digit nor the first letters of a spelling, or opens like spelling `m`
      and departs from it at index `d`. */
  lemma NoMatchBetween(st: string, lo: nat, hi: nat, m: nat, d: nat)
    requires lo <= hi <= |st| && m < 10 && d < |Day01.NumberOption(m).0|
    requires forall k :: lo <= k < hi ==> NoOpeningAt(st, k, Day01.NumberOption(m).0, d)
    ensures forall k :: lo <= k < hi ==> Unread(st, k)
  {
    forall k | lo <= k < hi
      ensures Unread(st, k)
    {
      assert NoOpeningAt(st, k, Day01.NumberOption(m).0, d);
      var s := st[k..];
      assert s[0] == st[k];
      if |s| >= 2 {
        assert s[1] == st[k + 1];
        if Opening(s[0], s[1]) {
          var word := Day01.NumberOption(m).0;
          assert s[..2] == [st[k], st[k + 1]];
          assert word[..2] == [word[0], word[1]];
          if d < |s| {
            assert s[d] == st[k + d];
          }
        }
      }
      NoMatchAt(s, m, d);
    }
  }

  /** Index `k` of `st` holds no digit, and neither opens a spelling nor opens like `word`
      without departing from it at index `d`. */
  predicate NoOpeningAt(st: string, k: nat, word: string, d: nat)
    requires k < |st| && 2 <= |word| && d < |word|
  {
    && !IsDigit(st[k])
    && (k + 1 >= |st| || !Opening(st[k], st[k + 1]) ||
        (st[k] == word[0] && st[k + 1] == word[1] && (k + d >= |st| || st[k + d] != word[d])))
  }

  /** "eightwothree" gives 83. */
  lemma EightTwoThree()
    ensures Day01.Calibrate(Skip("eightwothree", 0)) == Some(83)
  {
    var st := "eightwothree";
    EightTwoThreeReads(st);
    ScanValue(st, 0, '8', 7, '3');
  }

  lemma EightTwoThreeReads(st: string)
    requires st == "eightwothree"
    ensures Day01.FirstMatch(st[0..], Day01.Options) == Some(('8', 5))
    ensures Day01.FirstMatch(st[7..], Day01.Options) == Some(('3', 5))
    ensures forall k :: 7 < k < |st| ==> Unread(st, k)
  {
    MatchAt(st[0..], 8);
    MatchAt(st[7..], 3);
    NoMatchBetween(st, 8, |st|, 0, 0);
  }

  /** "zoneight234" gives 14: the "one" hidden after a "z" counts. */
  lemma ZoneEight()
    ensures Day01.Calibrate(Skip("zoneight234", 0)) == Some(14)
  {
    var st := "zoneight234";
    ZoneEightReads(st);
    ScanValue(st, 1, '1', 10, '4');
  }

  lemma ZoneEightReads(st: string)
    requires st == "zoneight234"
    ensures Day01.FirstMatch(st[1..], Day01.Options) == Some(('1', 3))
    ensures Day01.FirstMatch(st[10..], Day01.Options) == Some(('4', 1))
    ensures Day01.FirstMatch(st[0..], Day01.Options).None?
  {
    NoMatchAt(st[0..], 0, 0);
    MatchAt(st[1..], 1);
    MatchAt(st[10..], 14);
  }

  /** "abtwonefoo" gives 21: "two" and "one" share their "o" and both count, and "foo"
      is not a "four". */
  lemma TwoOne()
    ensures Day01.Calibrate(Skip("abtwonefoo", 0)) == Some(21)
  {
    var st := "abtwonefoo";
    TwoOneReads(st);
    ScanValue(st, 2, '2', 4, '1');
  }

  lemma TwoOneReads(st: string)
    requires st == "abtwonefoo"
    ensures Day01.FirstMatch(st[2..], Day01.Options) == Some(('2', 3))
    ensures Day01.FirstMatch(st[4..], Day01.Options) == Some(('1', 3))
    ensures forall k :: 0 <= k < 2 ==> Unread(st, k)
    ensures forall k :: 4 < k < |st| ==> Unread(st, k)
  {
    NoMatchBetween(st, 0, 2, 0, 0);
    MatchAt(st[2..], 2);
    MatchAt(st[4..], 1);
    NoMatchBetween(st, 5, |st|, 4, 2);
  }

  /** "five" gives 55: a single digit is both the first and the last. */
  lemma Five()
    ensures Day01.Calibrate(Skip("five", 0)) == Some(55)
  {
    var st := "five";
    FiveReads(st);
    ScanValue(st, 0, '5', 0, '5');
  }

  lemma FiveReads(st: string)
    requires st == "five"
    ensures Day01.FirstMatch(st[0..], Day01.Options) == Some(('5', 4))
    ensures forall k :: 0 < k < |st| ==> Unread(st, k)
  {
    MatchAt(st[0..], 5);
    NoMatchBetween(st, 1, |st|, 0, 0);
  }

  /** "onefoursixnine" gives 19. */
  lemma OneNine()
    ensures Day01.Calibrate(Skip("onefoursixnine", 0)) == Some(19)
  {
    var st := "onefoursixnine";
    OneNineReads(st);
    ScanValue(st, 0, '1', 10, '9');
  }

  lemma OneNineReads(st: string)
    requires st == "onefoursixnine"
    ensures Day01.FirstMatch(st[0..], Day01.Options) == Some(('1', 3))
    ensures Day01.FirstMatch(st[10..], Day01.Options) == Some(('9', 4))
    ensures forall k :: 10 < k < |st| ==> Unread(st, k)
  {
    MatchAt(st[0..], 1);
    MatchAt(st[10..], 9);
    NoMatchBetween(st, 11, |st|, 0, 0);
  }
}

/** Day 1 (day01/src/main.rs): calibration values. The value of a line is the two-digit
    number made of its first and last digit; in the second reading a digit may also be
    spelled out ("one" to "nine", and "zero"). */
module Day01 {
  import opened Wrappers
  import opened Strings

  /** `char_to_int`: the value of a decimal digit. */
  function CharToInt(c: char): (r: Result<nat, string>)
    ensures r.Ok? <==> IsDigit(c)
    ensures r.Ok? ==> r.value < 10 && NatText(r.value) == [c]
  {
    match c
    case '0' => Ok(0) case '1' => Ok(1) case '2' => Ok(2) case '3' => Ok(3) case '4' => Ok(4)
    case '5' => Ok(5) case '6' => Ok(6) case '7' => Ok(7) case '8' => Ok(8) case '9' => Ok(9)
    case _ => Err("Not a valid digit")
  }

  // ---------------------------------------------------------------------------------------
  // The table of spellings and `parse_string`
  // ---------------------------------------------------------------------------------------

  /** The number of entries of `number_options`. */
  const Options: nat := 20

  /** Entry `k` of `number_options`: a spelling, the digit it stands for, and its size. */
  function NumberOption(k: nat): (string, char, nat)
    requires k < Options
  {
    match k
    case 0 => ("zero", '0', 4) case 1 => ("one", '1', 3) case 2 => ("two", '2', 3)
    case 3 => ("three", '3', 5) case 4 => ("four", '4', 4) case 5 => ("five", '5', 4)
    case 6 => ("six", '6', 3) case 7 => ("seven", '7', 5) case 8 => ("eight", '8', 5)
    case 9 => ("nine", '9', 4)
    case 10 => ("0", '0', 1) case 11 => ("1", '1', 1) case 12 => ("2", '2', 1)
    case 13 => ("3", '3', 1) case 14 => ("4", '4', 1) case 15 => ("5", '5', 1)
    case 16 => ("6", '6', 1) case 17 => ("7", '7', 1) case 18 => ("8", '8', 1)
    case _ => ("9", '9', 1)
  }

  predicate IsLetter(c: char) {
    'a' <= c <= 'z'
  }

  /** The table is consistent: every size is the length of its spelling, every value a
      digit; the first ten entries are words of lower-case letters, the last ten the
      digits themselves. */
  lemma NumberOptionsWellFormed(k: nat)
    requires k < Options
    ensures var (word, value, size) := NumberOption(k);
      size == |word| && IsDigit(value) && (k < 10 ==> |word| >= 3 && forall i :: 0 <= i < |word| ==> IsLetter(word[i])) &&
      (k >= 10 ==> word == [value])
  {
  }

  /** The first of the last `n` entries of the table whose spelling starts `st`. */
  function FirstMatch(st: string, n: nat): (r: Option<(char, nat)>)
    requires n <= Options
    ensures r.Some? ==> IsDigit(r.value.0) && 1 <= r.value.1 <= |st|
  {
    if n == 0 then None
    else
      var (word, value, size) := NumberOption(Options - n);
      if StartsWith(st, word) then Some((value, size)) else FirstMatch(st, n - 1)
  }

  /** `parse_string`: scan the table and return the first entry whose spelling starts the
      text, with its digit and size. */
  method ParseString(st: string) returns (r: Option<(char, nat)>)
    ensures r == FirstMatch(st, Options)
  {
    for k := 0 to Options
      invariant FirstMatch(st, Options - k) == FirstMatch(st, Options)
    {
      var (word, value, size) := NumberOption(k);
      if StartsWith(st, word) {
        return Some((value, size));
      }
    }
    return None;
  }

  /** `parse_string` finds a match exactly when some spelling starts the text; it is the
      first such entry, its digit and the length of the spelling. */
  lemma {:induction false} FirstMatchSpec(st: string, n: nat)
    requires n <= Options
    ensures FirstMatch(st, n).None? <==> forall j :: Options - n <= j < Options ==> !StartsWith(st, NumberOption(j).0)
    ensures FirstMatch(st, n).Some? ==> exists j :: (Options - n <= j < Options && StartsWith(st, NumberOption(j).0) &&
      FirstMatch(st, n).value == (NumberOption(j).1, |NumberOption(j).0|) &&
      forall i :: Options - n <= i < j ==> !StartsWith(st, NumberOption(i).0))
  {
    if n > 0 {
      var k := Options - n;
      FirstMatchSpec(st, n - 1);
      NumberOptionsWellFormed(k);
      if FirstMatch(st, n).Some? && !StartsWith(st, NumberOption(k).0) {
        var j :| k + 1 <= j < Options && StartsWith(st, NumberOption(j).0) &&
          FirstMatch(st, n - 1).value == (NumberOption(j).1, |NumberOption(j).0|) &&
          forall i :: k + 1 <= i < j ==> !StartsWith(st, NumberOption(i).0);
        assert forall i :: k <= i < j ==> !StartsWith(st, NumberOption(i).0);
      }
    }
  }

  // ---------------------------------------------------------------------------------------
  // Putting the first and last digit together
  // ---------------------------------------------------------------------------------------

  predicate AllDigitChars(ds: seq<char>) {
    forall i :: 0 <= i < |ds| ==> IsDigit(ds[i])
  }

  /** The first and last digit joined into a string and parsed as a `u32`; `None` stands
      for the panic of `first().unwrap()` when there is no digit. */
  function Calibrate(ds: seq<char>): Option<nat> {
    if ds == [] then None else ParseNat([ds[0], ds[|ds| - 1]])
  }

  /** The parsed string is the two-digit number ten times the first digit plus the last. */
  lemma CalibrateValue(ds: seq<char>)
    requires AllDigitChars(ds)
    ensures Calibrate(ds).None? <==> ds == []
    ensures ds != [] ==> Calibrate(ds) == Some(10 * DigitValue(ds[0]) + DigitValue(ds[|ds| - 1]))
    ensures ds != [] ==> Calibrate(ds).value < 100
  {
    if ds != [] {
      var two := [ds[0], ds[|ds| - 1]];
      assert AllDigits(two);
      assert two[..1] == [ds[0]];
      assert DecimalValue(two[..1]) == DigitValue(ds[0]);
    }
  }

  // ---------------------------------------------------------------------------------------
  // `collect_values`
  // ---------------------------------------------------------------------------------------

  /** The characters of `st` in '0'..='9', in order. */
  function Digits(st: string): (ds: seq<char>)
    ensures AllDigitChars(ds)
    decreases |st|
  {
    if st == [] then []
    else Digits(st[..|st| - 1]) + (if IsDigit(st[|st| - 1]) then [st[|st| - 1]] else [])
  }

  /** `collect_values`: keep the digits, join the first and the last. */
  function CollectValues(st: string): Option<nat> {
    Calibrate(Digits(st))
  }

  lemma {:induction false} DigitsFirst(st: string)
    ensures Digits(st) == [] <==> forall i :: 0 <= i < |st| ==> !IsDigit(st[i])
    ensures Digits(st) != [] ==> exists i :: (0 <= i < |st| && IsDigit(st[i]) && Digits(st)[0] == st[i] &&
      forall j :: 0 <= j < i ==> !IsDigit(st[j]))
    decreases |st|
  {
    if st != [] {
      var init := st[..|st| - 1];
      DigitsFirst(init);
      assert forall j :: 0 <= j < |init| ==> init[j] == st[j];
      if Digits(init) != [] {
        var i :| 0 <= i < |init| && IsDigit(init[i]) && Digits(init)[0] == init[i] &&
          forall j :: 0 <= j < i ==> !IsDigit(init[j]);
        assert IsDigit(st[i]) && Digits(st)[0] == st[i];
      }
    }
  }

  /** The digits of a concatenation are the digits of each part. */
  lemma {:induction false} DigitsConcat(a: string, b: string)
    ensures Digits(a + b) == Digits(a) + Digits(b)
    decreases |b|
  {
    if b == [] {
      assert a + b == a;
    } else {
      var init := b[..|b| - 1];
      DigitsConcat(a, init);
      assert (a + b)[..|a + b| - 1] == a + init;
      assert (a + b)[|a + b| - 1] == b[|b| - 1];
    }
  }

  lemma DigitsLast(st: string)
    requires Digits(st) != []
    ensures exists i :: (0 <= i < |st| && IsDigit(st[i]) && Digits(st)[|Digits(st)| - 1] == st[i] &&
      forall j :: i < j < |st| ==> !IsDigit(st[j]))
    decreases |st|
  {
    var init, last := st[..|st| - 1], st[|st| - 1];
    if !IsDigit(last) {
      DigitsLast(init);
      var i :| 0 <= i < |init| && IsDigit(init[i]) && Digits(init)[|Digits(init)| - 1] == init[i] &&
        forall j :: i < j < |init| ==> !IsDigit(init[j]);
      assert st[i] == init[i];
    }
  }

  /** The value of a line is ten times its first digit character plus its last one, and
      there is none (the source panics) when the line has no digit. */
  lemma CollectValuesSpec(st: string)
    ensures CollectValues(st).None? <==> forall i :: 0 <= i < |st| ==> !IsDigit(st[i])
    ensures CollectValues(st).Some? ==> exists i, j :: (0 <= i <= j < |st| && IsDigit(st[i]) && IsDigit(st[j]) &&
      (forall k :: 0 <= k < i ==> !IsDigit(st[k])) && (forall k :: j < k < |st| ==> !IsDigit(st[k])) &&
      CollectValues(st).value == 10 * DigitValue(st[i]) + DigitValue(st[j]))
  {
    DigitsFirst(st);
    var ds := Digits(st);
    CalibrateValue(ds);
    if ds != [] {
      DigitsLast(st);
      var i :| 0 <= i < |st| && IsDigit(st[i]) && ds[0] == st[i] && forall j :: 0 <= j < i ==> !IsDigit(st[j]);
      var j :| 0 <= j < |st| && IsDigit(st[j]) && ds[|ds| - 1] == st[j] && forall k :: j < k < |st| ==> !IsDigit(st[k]);
      assert i <= j;
    }
  }

  // ---------------------------------------------------------------------------------------
  // `collect_values2`
  // ---------------------------------------------------------------------------------------

  /** The digits found by trying `parse_string` at every index from `idx` on. */
  function Spelled(st: string, idx: nat): seq<char>
    requires idx <= |st|
    decreases |st| - idx
  {
    if idx == |st| then []
    else
      var here := FirstMatch(st[idx..], Options);
      (if here.Some? then [here.value.0] else []) + Spelled(st, idx + 1)
  }

  /** `collect_values2`: try `parse_string` at every index, so overlapping spellings all
      count, and join the first and last digit found. */
  method CollectValues2(st: string) returns (r: Option<nat>)
    ensures r == Calibrate(Spelled(st, 0))
  {
    var digits: seq<char> := [];
    for idx := 0 to |st|
      invariant digits + Spelled(st, idx) == Spelled(st, 0)
    {
      var found := ParseString(st[idx..]);
      ghost var here: seq<char> := if found.Some? then [found.value.0] else [];
      ghost var before := digits;
      assert Spelled(st, idx) == here + Spelled(st, idx + 1);
      ConcatAssociative(digits, here, Spelled(st, idx + 1));
      if found.Some? {
        var (value, _) := found.value;
        digits := digits + [value];
      }
      assert digits == before + here;
    }
    assert digits == Spelled(st, 0);
    r := Calibrate(digits);
  }

  /** Every digit found is a digit, so `collect_values2` gives a two-digit number unless
      no spelling occurs at all. */
  lemma {:induction false} SpelledDigits(st: string, idx: nat)
    requires idx <= |st|
    ensures AllDigitChars(Spelled(st, idx))
    ensures Spelled(st, idx) == [] <==> forall i :: idx <= i < |st| ==> FirstMatch(st[i..], Options).None?
    decreases |st| - idx
  {
    if idx < |st| {
      SpelledDigits(st, idx + 1);
      var here := FirstMatch(st[idx..], Options);
      if here.Some? {
        FirstMatchSpec(st[idx..], Options);
        var j :| 0 <= j < Options && StartsWith(st[idx..], NumberOption(j).0) &&
          here.value == (NumberOption(j).1, |NumberOption(j).0|) &&
          forall i :: 0 <= i < j ==> !StartsWith(st[idx..], NumberOption(i).0);
        NumberOptionsWellFormed(j);
      }
    }
  }
}

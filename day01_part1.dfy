/** Day 1, first part (day01/src/bin/part1.rs): the calibration value of a line made of
    the first and last decimal digit found by `match_indices`. */
module Day01Part1 {
  import opened Wrappers
  import opened Strings
  import Day01

  /** `st.match_indices(DIGITS)` over the first `n` characters: every digit with its index,
      in order. */
  function MatchIndices(st: string, n: nat): seq<(nat, char)>
    requires n <= |st|
  {
    if n == 0 then []
    else MatchIndices(st, n - 1) + (if IsDigit(st[n - 1]) then [(n - 1, st[n - 1])] else [])
  }

  function Chars(ms: seq<(nat, char)>): seq<char> {
    seq(|ms|, i requires 0 <= i < |ms| => ms[i].1)
  }

  /** Every match is a digit at its index, the indices increase, and every digit of the
      text is matched. */
  lemma {:induction false} MatchIndicesSpec(st: string, n: nat)
    requires n <= |st|
    ensures forall k :: 0 <= k < |MatchIndices(st, n)| ==>
      var (i, ch) := MatchIndices(st, n)[k]; i < n && st[i] == ch && IsDigit(ch)
    ensures forall k, l :: 0 <= k < l < |MatchIndices(st, n)| ==> MatchIndices(st, n)[k].0 < MatchIndices(st, n)[l].0
    ensures forall i :: 0 <= i < n && IsDigit(st[i]) ==> exists k :: 0 <= k < |MatchIndices(st, n)| && MatchIndices(st, n)[k].0 == i
  {
    if n > 0 {
      MatchIndicesSpec(st, n - 1);
      var ms := MatchIndices(st, n - 1);
      assert forall k :: 0 <= k < |ms| ==> MatchIndices(st, n)[k] == ms[k];
      if IsDigit(st[n - 1]) {
        assert MatchIndices(st, n)[|ms|].0 == n - 1;
      }
    }
  }

  /** The matched characters are the digits that `collect_values` of main.rs keeps. */
  lemma {:induction false} MatchedDigits(st: string, n: nat)
    requires n <= |st|
    ensures Chars(MatchIndices(st, n)) == Day01.Digits(st[..n])
  {
    if n > 0 {
      MatchedDigits(st, n - 1);
      assert st[..n][..n - 1] == st[..n - 1];
    }
  }

  /** `collect_values`: the first and last matched digit joined and parsed. */
  function CollectValues(st: string): Option<nat> {
    Day01.Calibrate(Chars(MatchIndices(st, |st|)))
  }

  /** The first part computes the same value as `collect_values` of main.rs: ten times the
      first digit plus the last, and nothing (the source panics) on a line without digits. */
  lemma CollectValuesAgree(st: string)
    ensures CollectValues(st) == Day01.CollectValues(st)
    ensures CollectValues(st).None? <==> forall i :: 0 <= i < |st| ==> !IsDigit(st[i])
  {
    MatchedDigits(st, |st|);
    assert st[..|st|] == st;
    Day01.CollectValuesSpec(st);
  }

  /** A digit `a` after a text `pre` without digits is the first digit of the line, and
      before a text `post` without digits the last one. */
  lemma Framed(pre: string, a: char, post: string)
    requires IsDigit(a)
    ensures Day01.Digits(pre + [a] + post) != []
    ensures (forall i :: 0 <= i < |pre| ==> !IsDigit(pre[i])) ==> Day01.Digits(pre + [a] + post)[0] == a
    ensures (forall i :: 0 <= i < |post| ==> !IsDigit(post[i])) ==>
      Day01.Digits(pre + [a] + post)[|Day01.Digits(pre + [a] + post)| - 1] == a
  {
    Day01.DigitsFirst(pre);
    Day01.DigitsFirst(post);
    Day01.DigitsConcat(pre, [a]);
    Day01.DigitsConcat(pre + [a], post);
    assert Day01.Digits([a]) == [a];
  }

  /** A line with digit `a` first and digit `b` last, with no other digit before or after. */
  lemma Bracketed(pre: string, a: char, mid: string, b: char, post: string)
    requires IsDigit(a) && IsDigit(b)
    requires forall i :: 0 <= i < |pre| ==> !IsDigit(pre[i])
    requires forall i :: 0 <= i < |post| ==> !IsDigit(post[i])
    ensures CollectValues(pre + [a] + mid + [b] + post) == Some(10 * DigitValue(a) + DigitValue(b))
  {
    var st := pre + [a] + mid + [b] + post;
    CollectValuesAgree(st);
    Framed(pre, a, mid + [b] + post);
    Framed(pre + [a] + mid, b, post);
    assert pre + [a] + (mid + [b] + post) == st;
    var ds := Day01.Digits(st);
    Day01.CalibrateValue(ds);
  }

  /** The source's examples: "1abc2", "pqr3stu8vwx", "a1b2c3d4e5f". */
  lemma Examples()
    ensures CollectValues("1abc2") == Some(12)
    ensures CollectValues("pqr3stu8vwx") == Some(38)
    ensures CollectValues("a1b2c3d4e5f") == Some(15)
  {
    Bracketed("", '1', "abc", '2', "");
    assert "" + ['1'] + "abc" + ['2'] + "" == "1abc2";
    Bracketed("pqr", '3', "stu", '8', "vwx");
    assert "pqr" + ['3'] + "stu" + ['8'] + "vwx" == "pqr3stu8vwx";
    Bracketed("a", '1', "b2c3d4e", '5', "f");
    assert "a" + ['1'] + "b2c3d4e" + ['5'] + "f" == "a1b2c3d4e5f";
  }

  /** A line with a single digit counts it twice: "treb7uchet" gives 77. */
  lemma SingleDigit(pre: string, a: char, post: string)
    requires IsDigit(a)
    requires forall i :: 0 <= i < |pre| ==> !IsDigit(pre[i])
    requires forall i :: 0 <= i < |post| ==> !IsDigit(post[i])
    ensures CollectValues(pre + [a] + post) == Some(11 * DigitValue(a))
  {
    var st := pre + [a] + post;
    CollectValuesAgree(st);
    Framed(pre, a, post);
    var ds := Day01.Digits(st);
    Day01.CalibrateValue(ds);
  }

  lemma SingleDigitExample()
    ensures CollectValues("treb7uchet") == Some(77)
  {
    SingleDigit("treb", '7', "uchet");
    assert "treb" + ['7'] + "uchet" == "treb7uchet";
  }
}

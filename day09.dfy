/** Day 9 (day09/src/lib.rs): extrapolating a series of readings one step forwards or
    backwards from its rows of differences. Readings are unbounded integers. */
module Day09 {
  import Strings

  /** The row of differences between neighbouring readings. */
  function Differences(series: seq<int>): (d: seq<int>)
    requires |series| >= 1
    ensures |d| == |series| - 1
    ensures forall i {:trigger d[i]} :: 0 <= i < |d| ==> d[i] == series[i + 1] - series[i]
  {
    seq(|series| - 1, i requires 0 <= i < |series| - 1 => series[i + 1] - series[i])
  }

  predicate AllZero(row: seq<int>) {
    forall i :: 0 <= i < |row| ==> row[i] == 0
  }

  /** `find_next`: the last reading plus the extrapolated next difference, which is 0 once
      the differences are all zero. An empty series makes the source panic. */
  function FindNext(series: seq<int>): int
    requires |series| >= 1
    decreases |series|
  {
    var row := Differences(series);
    if !AllZero(row) then series[|series| - 1] + FindNext(row) else series[|series| - 1]
  }

  /** `find_prev`: the first reading minus the extrapolated previous difference. */
  function FindPrev(series: seq<int>): int
    requires |series| >= 1
    decreases |series|
  {
    var row := Differences(series);
    if !AllZero(row) then series[0] - FindPrev(row) else series[0]
  }

  /** A single reading, or a constant series, extrapolates to itself in both directions. */
  lemma Constant(series: seq<int>, c: int)
    requires |series| >= 1 && forall i :: 0 <= i < |series| ==> series[i] == c
    ensures FindNext(series) == c && FindPrev(series) == c
  {
    assert AllZero(Differences(series));
  }

  /** A series growing by `step` each time extrapolates to the next and the previous term. */
  lemma Arithmetic(series: seq<int>, first: int, step: int)
    requires |series| >= 2 && forall i :: 0 <= i < |series| ==> series[i] == first + step * i
    ensures FindNext(series) == first + step * |series|
    ensures FindPrev(series) == first - step
  {
    var row := Differences(series);
    forall i | 0 <= i < |row|
      ensures row[i] == step
    {
      assert step * (i + 1) == step * i + step;
    }
    var n := |series|;
    assert series[n - 1] == first + step * (n - 1);
    assert step * (n - 1) + step == step * n;
    if step != 0 {
      assert row[0] != 0;
      Constant(row, step);
      assert FindNext(series) == series[n - 1] + FindNext(row);
      assert FindPrev(series) == series[0] - FindPrev(row);
    } else {
      assert AllZero(row);
    }
  }

  lemma DifferencesSnoc(series: seq<int>, v: int)
    requires |series| >= 1
    ensures Differences(series + [v]) == Differences(series) + [v - series[|series| - 1]]
  {
    var s := series + [v];
    assert forall i :: 0 <= i < |series| ==> s[i] == series[i];
  }

  lemma DifferencesCons(series: seq<int>, v: int)
    requires |series| >= 1
    ensures Differences([v] + series) == [series[0] - v] + Differences(series)
  {
    var s := [v] + series;
    assert forall i :: 1 <= i < |s| ==> s[i] == series[i - 1];
  }

  /** The extrapolated reading extends the row of differences by one entry: the new last
      difference is the value extrapolated for that row, or 0 once it is all zero. */
  lemma NextExtends(series: seq<int>, next: int, step: int)
    requires |series| >= 1 && next == FindNext(series)
    requires step == if AllZero(Differences(series)) then 0 else FindNext(Differences(series))
    ensures Differences(series + [next]) == Differences(series) + [step]
  {
    DifferencesSnoc(series, next);
  }

  /** The extrapolated previous reading extends the row of differences at the front. */
  lemma PrevExtends(series: seq<int>, prev: int, step: int)
    requires |series| >= 1 && prev == FindPrev(series)
    requires step == if AllZero(Differences(series)) then 0 else FindPrev(Differences(series))
    ensures Differences([prev] + series) == [step] + Differences(series)
  {
    DifferencesCons(series, prev);
  }

  function Negate(s: seq<int>): (r: seq<int>)
    ensures |r| == |s| && forall i :: 0 <= i < |s| ==> r[i] == -s[i]
  {
    seq(|s|, i requires 0 <= i < |s| => -s[i])
  }

  /** Extrapolation is linear: negated readings extrapolate to the negated value. */
  lemma {:induction false} NextNegate(series: seq<int>)
    requires |series| >= 1
    ensures FindNext(Negate(series)) == -FindNext(series)
    decreases |series|
  {
    var row := Differences(series);
    assert Differences(Negate(series)) == Negate(row);
    if !AllZero(row) {
      assert !AllZero(Negate(row));
      NextNegate(row);
    } else {
      assert AllZero(Negate(row));
    }
  }

  /** Extrapolating backwards is extrapolating forwards over the reversed readings. */
  lemma {:induction false} PrevIsReversedNext(series: seq<int>)
    requires |series| >= 1
    ensures FindPrev(series) == FindNext(Strings.Reverse(series))
    decreases |series|
  {
    var row := Differences(series);
    var rev := Strings.Reverse(series);
    assert Differences(rev) == Negate(Strings.Reverse(row));
    if !AllZero(row) {
      var k :| 0 <= k < |row| && row[k] != 0;
      assert Negate(Strings.Reverse(row))[|row| - 1 - k] != 0;
      PrevIsReversedNext(row);
      NextNegate(Strings.Reverse(row));
    } else {
      assert AllZero(Negate(Strings.Reverse(row)));
    }
  }
}
